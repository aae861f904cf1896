/** The octets an RRSIG covers (section 5.3.2 of RFC 4035): wildcard owners,
    canonical order of the RRset, and a parser that reads the octets back. */
module SignedData {
  import opened Ordering
  import opened Bytes
  import opened Names
  import opened RData

  const CLASS_INET: u16 := 1

  datatype RRSIGInfo = RRSIGInfo(typeCovered: u16, algorithm: byte, labels: byte, originalTTL: u32, expiration: u32,
                                 inception: u32, keyTag: u16, signerName: Str, rawSignature: Str, rawRdata: Str)

  /** The 18 fixed octets of an RRSIG's RDATA. */
  function FixedFields(r: Rrsig): (b: Str)
    ensures |b| == 18
  {
    PutU16(r.typeCovered) + [r.algorithm, r.labels] + PutU32(r.origTtl) + PutU32(r.expiration)
    + PutU32(r.inception) + PutU16(r.keyTag)
  }

  /** RRSIG RDATA without the signature. */
  function SigRDataNoSig(r: Rrsig): Str {
    FixedFields(r) + PackOrNothing(r.signerName)
  }

  function ParseRRSIG(r: Rrsig): RRSIGInfo {
    RRSIGInfo(r.typeCovered, r.algorithm, r.labels, r.origTtl, r.expiration, r.inception, r.keyTag,
              Fqdn(r.signerName), r.signature, SigRDataNoSig(r))
  }

  // ----- the signed owner -----

  function TrimDot(n: Str): Str {
    if n != [] && n[|n| - 1] == DOT then n[..|n| - 1] else n
  }

  /** `strings.Split` of a name without its final dot. */
  function RawLabels(n: Str): seq<Str> {
    Split(TrimDot(Fqdn(n)))
  }

  function CountLabels(n: Str): nat {
    if TrimDot(Fqdn(n)) == [] then 0 else |RawLabels(n)|
  }

  /** The rightmost `k` labels. */
  function LastLabels(n: Str, k: nat): seq<Str> {
    var ls := RawLabels(n);
    if k > |ls| then ls else ls[|ls| - k..]
  }

  /** An owner with more labels than the RRSIG covers is signed as a wildcard. */
  function SignedOwner(owner: Str, labels: nat): Str {
    if CountLabels(owner) > labels then [STAR, DOT] + Join(LastLabels(owner, labels)) + [DOT] else owner
  }

  lemma SplitOwner(ls: seq<Str>)
    requires WellFormed(ls) && ls != []
    ensures TrimDot(Fqdn(Dotted(ls))) == Join(ls) != [] && RawLabels(Dotted(ls)) == ls
  {
    SplitJoin(ls);
    assert Split([]) == [[]];
  }

  lemma CountLabelsOf(ls: seq<Str>)
    requires WellFormed(ls)
    ensures CountLabels(Dotted(ls)) == |ls|
  {
    if ls == [] {
      assert TrimDot(Fqdn(Dotted(ls))) == [];
    } else {
      SplitOwner(ls);
    }
  }

  lemma LastLabelsOf(n: Str, ls: seq<Str>, k: nat)
    requires RawLabels(n) == ls && k <= |ls|
    ensures LastLabels(n, k) == ls[|ls| - k..]
  {
  }

  lemma WildcardSpelling(z: seq<Str>)
    requires z != []
    ensures [STAR, DOT] + Join(z) + [DOT] == Dotted([[STAR]] + z)
  {
    JoinAppend([[STAR]], z);
    assert [STAR, DOT] == [STAR] + [DOT];
  }

  /** Wildcard reconstruction on labels: the owner is kept when the signature
      covers all of it, and otherwise becomes `*` (octet 42) above its last labels. */
  lemma SignedOwnerOnLabels(ls: seq<Str>, k: nat)
    requires WellFormed(ls)
    ensures |ls| <= k ==> SignedOwner(Dotted(ls), k) == Dotted(ls)
    ensures 1 <= k < |ls| ==> SignedOwner(Dotted(ls), k) == Dotted([[42]] + ls[|ls| - k..])
    ensures k == 0 && ls != [] ==> SignedOwner(Dotted(ls), k) == [42, 46, 46]
  {
    CountLabelsOf(ls);
    if ls != [] && k <= |ls| {
      SplitOwner(ls);
      LastLabelsOf(Dotted(ls), ls, k);
    }
    if 1 <= k < |ls| {
      WildcardSpelling(ls[|ls| - k..]);
    } else if k == 0 && ls != [] {
      assert ls[|ls|..] == [];
      assert [STAR, DOT] + [] + [DOT] == [STAR, DOT, DOT];
    }
  }

  lemma {:induction false} WireLengthOfSuffix(p: seq<Str>, z: seq<Str>)
    ensures WireLength(z) <= WireLength(p + z)
    ensures p != [] && AreLabels(p) ==> WireLength(z) + 2 <= WireLength(p + z)
  {
    if p == [] {
      assert p + z == z;
    } else {
      assert (p + z)[1..] == p[1..] + z;
      WireLengthOfSuffix(p[1..], z);
    }
  }

  /** Packing depends only on the lengths of the labels: the limits are those of
      sections 2.3.4 and 3.1 of RFC 1035, 63 octets and 255 in all. */
  lemma PackableLabels(ls: seq<Str>)
    requires WellFormed(ls)
    ensures Packable(Dotted(ls)) <==> (forall i :: 0 <= i < |ls| ==> |ls[i]| <= 63) && WireLength(ls) <= 255
    ensures Packable(Dotted(ls)) ==> |Pack(Dotted(ls)).value| == WireLength(ls)
  {
    if AreLabels(LowerLabels(ls)) {
      WireHasLength(LowerLabels(ls));
    }
    PackOfDotted(ls);
    WireLengthOfLower(ls);
    assert AreLabels(LowerLabels(ls)) <==> AreLabels(ls) by {
      forall i | 0 <= i < |ls| ensures |LowerLabels(ls)[i]| == |ls[i]| {}
      assert AreLabels(ls) ==> AreLabels(LowerLabels(ls));
      if AreLabels(LowerLabels(ls)) {
        forall i | 0 <= i < |ls| ensures IsLabel(ls[i]) { assert IsLabel(LowerLabels(ls)[i]); }
      }
    }
  }

  lemma WildcardPacks(p: seq<Str>, z: seq<Str>)
    requires WellFormed(p + z) && p != [] && AreLabels(p + z) && WireLength(p + z) <= 255
    ensures Packable(Dotted([[STAR]] + z))
  {
    var w := [[STAR]] + z;
    forall i | 0 <= i < |p| ensures IsLabel(p[i]) { assert IsLabel((p + z)[i]); }
    forall i | 0 <= i < |z| ensures IsLabel(z[i]) && DOT !in z[i] { assert IsLabel((p + z)[|p| + i]); }
    WireLengthOfSuffix(p, z);
    assert w[1..] == z;
    PackableLabels(w);
  }

  /** The signed owner of a packable name packs, except when the RRSIG claims
      zero labels for a name that has some: then ZoneLint writes `*..`. */
  lemma SignedOwnerPacks(ls: seq<Str>, k: nat)
    requires WellFormed(ls) && Packable(Dotted(ls))
    ensures Packable(SignedOwner(Dotted(ls), k)) <==> k >= 1 || ls == []
  {
    SignedOwnerOnLabels(ls, k);
    if 1 <= k < |ls| {
      PackableLabels(ls);
      assert ls == ls[..|ls| - k] + ls[|ls| - k..];
      WildcardPacks(ls[..|ls| - k], ls[|ls| - k..]);
    } else if k == 0 && ls != [] {
      DoubleDotDoesNotPack();
    }
  }

  lemma DoubleDotDoesNotPack()
    ensures Pack([STAR, DOT, DOT]).None?
  {
    var n := [STAR, DOT, DOT];
    assert Lower(n) == n && n[..2] == [STAR] + [DOT] + [];
    SplitAtDot([STAR], []);
    assert Split([]) == [[]];
    assert LabelsOf(Canon(n))[|Split([STAR])|] == [];
  }

  // ----- packing a dotted name, label by label -----

  function LowerLabels(ls: seq<Str>): (r: seq<Str>)
    ensures |r| == |ls| && forall i :: 0 <= i < |ls| ==> r[i] == Lower(ls[i])
  {
    seq(|ls|, i requires 0 <= i < |ls| => Lower(ls[i]))
  }

  lemma LowerAppend(a: Str, b: Str)
    ensures Lower(a + b) == Lower(a) + Lower(b)
  {
  }

  lemma {:induction false} LowerJoin(ls: seq<Str>)
    ensures Lower(Join(ls)) == Join(LowerLabels(ls))
  {
    if |ls| > 1 {
      LowerJoin(ls[1..]);
      LowerAppend(ls[0] + [DOT], Join(ls[1..]));
      LowerAppend(ls[0], [DOT]);
      assert Lower([DOT]) == [DOT];
      assert LowerLabels(ls)[1..] == LowerLabels(ls[1..]);
    }
  }

  lemma LowerKeepsDots(l: Str)
    ensures DOT in Lower(l) <==> DOT in l
    ensures |Lower(l)| == |l|
  {
    if DOT in l {
      var i :| 0 <= i < |l| && l[i] == DOT;
      assert Lower(l)[i] == DOT;
    }
  }

  lemma {:induction false} WireLengthOfLower(ls: seq<Str>)
    ensures WireLength(LowerLabels(ls)) == WireLength(ls)
  {
    if ls != [] {
      WireLengthOfLower(ls[1..]);
      assert LowerLabels(ls)[1..] == LowerLabels(ls[1..]);
    }
  }

  lemma PackOfDotted(ls: seq<Str>)
    requires WellFormed(ls)
    ensures LabelsOf(Canon(Dotted(ls))) == LowerLabels(ls)
  {
    LowerJoin(ls);
    LowerAppend(Join(ls), [DOT]);
    assert Lower([DOT]) == [DOT];
    assert Canon(Dotted(ls)) == Dotted(LowerLabels(ls));
    forall i | 0 <= i < |ls| ensures LowerLabels(ls)[i] != [] && DOT !in LowerLabels(ls)[i] {
      LowerKeepsDots(ls[i]);
    }
    LabelsOfDotted(LowerLabels(ls));
  }

  // ----- the signed octets -----

  /** The non-nil RDATAs of a list of records, in order. */
  function RDatas(rrs: seq<RR>): seq<Str> {
    if rrs == [] then []
    else
      var p := RDatas(rrs[..|rrs| - 1]);
      match RRData(rrs[|rrs| - 1].data)
      case Some(rd) => p + [rd]
      case None => p
  }

  /** Type, class, TTL, RDLENGTH and RDATA of a record in canonical form. */
  function Tail(rtype: u16, ttl: u32, rd: Str): Str {
    PutU16(rtype) + PutU16(CLASS_INET) + PutU32(ttl) + PutU16(|rd| % 0x1_0000) + rd
  }

  /** One record in canonical form. */
  function Block(ownerWire: Str, rtype: u16, ttl: u32, rd: Str): Str {
    ownerWire + Tail(rtype, ttl, rd)
  }

  function Blocks(ownerWire: Str, rtype: u16, ttl: u32, rds: seq<Str>): Str {
    if rds == [] then []
    else Blocks(ownerWire, rtype, ttl, rds[..|rds| - 1]) + Block(ownerWire, rtype, ttl, rds[|rds| - 1])
  }

  function CanonicalRDatas(rrs: seq<RR>): seq<Str> {
    SortOnce(Compare, RDatas(rrs))
  }

  function SignedOctets(sig: RRSIGInfo, owner: Str, rrs: seq<RR>): Str {
    sig.rawRdata + Blocks(PackOrNothing(SignedOwner(owner, sig.labels)), sig.typeCovered, sig.originalTTL,
                          CanonicalRDatas(rrs))
  }

  /** The first loop of `signedData`: each RDATA once, nil RDATA skipped. */
  method DistinctRDatas(rrs: seq<RR>) returns (canon: seq<Str>)
    ensures Distinct(canon) && SameElements(canon, RDatas(rrs))
  {
    canon := [];
    var seenRD: set<Str> := {};
    for i := 0 to |rrs|
      invariant Distinct(canon) && SameElements(canon, RDatas(rrs[..i]))
      invariant forall x :: x in seenRD <==> x in canon
    {
      assert rrs[..i + 1][..i] == rrs[..i] && rrs[..i + 1][i] == rrs[i];
      var rd := RRData(rrs[i].data);
      if rd.Some? && rd.value !in seenRD {
        seenRD := seenRD + {rd.value};
        canon := canon + [rd.value];
      }
    }
    assert rrs[..|rrs|] == rrs;
  }

  method SortedRDatas(rrs: seq<RR>) returns (canon: seq<Str>)
    ensures canon == CanonicalRDatas(rrs)
  {
    canon := DistinctRDatas(rrs);
    var a := new Str[|canon|](i requires 0 <= i < |canon| => canon[i]);
    assert a[..] == canon;
    CompareIsTotalOrder();
    SortInPlace(Compare, a);
    SortedDistinctIsSortOnce(Compare, RDatas(rrs), canon, a[..]);
    canon := a[..];
  }

  method AppendBlocks(raw: Str, ownerWire: Str, rtype: u16, ttl: u32, canon: seq<Str>) returns (out: Str)
    ensures out == raw + Blocks(ownerWire, rtype, ttl, canon)
  {
    out := raw;
    for i := 0 to |canon|
      invariant out == raw + Blocks(ownerWire, rtype, ttl, canon[..i])
    {
      assert canon[..i + 1][..i] == canon[..i] && canon[..i + 1][i] == canon[i];
      out := out + Block(ownerWire, rtype, ttl, canon[i]);
    }
    assert canon[..|canon|] == canon;
  }

  /** `signedData`. */
  method BuildSignedData(sig: RRSIGInfo, owner: Str, rrs: seq<RR>) returns (out: Str)
    ensures out == SignedOctets(sig, owner, rrs)
  {
    var canon := SortedRDatas(rrs);
    var ownerWire := PackOrNothing(SignedOwner(owner, sig.labels));
    out := AppendBlocks(sig.rawRdata, ownerWire, sig.typeCovered, sig.originalTTL, canon);
  }

  // ----- the RRset is a set -----

  /** Section 6.3 of RFC 4034: of two RDATAs the one signed first has the smaller
      octet where they first differ, or ends there; and the RDATAs are those of
      the records. */
  lemma CanonicalOrder(rrs: seq<RR>)
    ensures var rds := CanonicalRDatas(rrs); forall i, j :: 0 <= i < j < |rds| ==> Precedes(rds[i], rds[j])
    ensures StrictlySorted(Compare, CanonicalRDatas(rrs)) && SameElements(CanonicalRDatas(rrs), RDatas(rrs))
  {
    CompareIsTotalOrder();
    SortOnceSorted(Compare, RDatas(rrs));
    var rds := CanonicalRDatas(rrs);
    forall i, j | 0 <= i < j < |rds| ensures Precedes(rds[i], rds[j]) {
      CompareIsOctetOrder(rds[i], rds[j]);
    }
  }

  /** Reordering or repeating records does not change what is signed. */
  lemma SignedOctetsIgnoreOrder(sig: RRSIGInfo, owner: Str, a: seq<RR>, b: seq<RR>)
    requires SameElements(RDatas(a), RDatas(b))
    ensures SignedOctets(sig, owner, a) == SignedOctets(sig, owner, b)
  {
    CompareIsTotalOrder();
    SortOnceIsSetEquality(Compare, RDatas(a), RDatas(b));
  }

  ghost predicate Encodes(rr: RR, rd: Str) {
    RRData(rr.data) == Some(rd)
  }

  lemma RDatasNext(rrs: seq<RR>, rd: Str)
    requires rrs != []
    ensures rd in RDatas(rrs) <==> rd in RDatas(rrs[..|rrs| - 1]) || Encodes(rrs[|rrs| - 1], rd)
  {
  }

  lemma {:induction false} RDatasElements(rrs: seq<RR>, rd: Str)
    ensures rd in RDatas(rrs) <==> exists rr :: rr in rrs && Encodes(rr, rd)
  {
    if rrs != [] {
      var p, l := rrs[..|rrs| - 1], rrs[|rrs| - 1];
      RDatasElements(p, rd);
      RDatasNext(rrs, rd);
      assert rrs == p + [l];
      assert forall rr :: rr in rrs <==> rr in p || rr == l;
    }
  }

  /** The same for permutations with repetition of the records themselves. */
  lemma SignedOctetsOfSameRecords(sig: RRSIGInfo, owner: Str, a: seq<RR>, b: seq<RR>)
    requires SameElements(a, b)
    ensures SignedOctets(sig, owner, a) == SignedOctets(sig, owner, b)
  {
    forall rd ensures rd in RDatas(a) <==> rd in RDatas(b) {
      RDatasElements(a, rd);
      RDatasElements(b, rd);
    }
    SignedOctetsIgnoreOrder(sig, owner, a, b);
  }

  /** All names that a wildcard signature covers, the literal `*` name among
      them, are signed with the same octets. */
  lemma WildcardOwnersShareOctets(sig: RRSIGInfo, p: seq<Str>, z: seq<Str>, rrs: seq<RR>)
    requires WellFormed(p) && WellFormed(z) && p != [] && z != [] && |z| == sig.labels
    ensures SignedOctets(sig, Dotted(p + z), rrs) == SignedOctets(sig, Dotted([[STAR]] + z), rrs)
    ensures PackOrNothing(SignedOwner(Dotted(p + z), sig.labels)) == PackOrNothing(Dotted([[STAR]] + z))
  {
    SignedOwnerOnLabels(p + z, sig.labels);
    SignedOwnerOnLabels([[STAR]] + z, sig.labels);
    assert (p + z)[|p|..] == z;
    assert ([[STAR]] + z)[1..] == z;
  }

  // ----- reading the octets back -----

  datatype SignedRR = SignedRR(owner: seq<Str>, rtype: u16, rclass: u16, ttl: u32, rdata: Str)

  datatype Signed = Signed(typeCovered: u16, algorithm: byte, labels: byte, origTtl: u32, expiration: u32,
                           inception: u32, keyTag: u16, signer: seq<Str>, records: seq<SignedRR>)

  /** Type, class, TTL, RDLENGTH and RDATA after an owner name. */
  function ParseTail(owner: seq<Str>, t: Str): Option<(SignedRR, Str)> {
    if |t| < 10 || |t| < 10 + GetU16(t[8..]) then None
    else
      var n: nat := GetU16(t[8..]);
      Some((SignedRR(owner, GetU16(t), GetU16(t[2..]), GetU32(t[4..]), t[10..10 + n]), t[10 + n..]))
  }

  function ParseRecord(b: Str): Option<(SignedRR, Str)> {
    match ParseName(b)
    case None => None
    case Some((owner, t)) => ParseTail(owner, t)
  }

  function ParseRecords(b: Str): Option<seq<SignedRR>>
    decreases |b|
  {
    if b == [] then Some([])
    else
      match ParseRecord(b)
      case None => None
      case Some((rr, rest)) =>
        if |rest| >= |b| then None
        else
          match ParseRecords(rest)
          case None => None
          case Some(rrs) => Some([rr] + rrs)
  }

  function ParseSigned(b: Str): Option<Signed> {
    if |b| < 18 then None
    else
      match ParseName(b[18..])
      case None => None
      case Some((signer, rest)) =>
        match ParseRecords(rest)
        case None => None
        case Some(rrs) =>
          Some(Signed(GetU16(b), b[2], b[3], GetU32(b[4..]), GetU32(b[8..]), GetU32(b[12..]), GetU16(b[16..]),
                      signer, rrs))
  }

  lemma FixedFieldsRoundTrip(r: Rrsig, rest: Str)
    ensures var b := FixedFields(r) + rest;
            GetU16(b) == r.typeCovered && b[2] == r.algorithm && b[3] == r.labels && GetU32(b[4..]) == r.origTtl
            && GetU32(b[8..]) == r.expiration && GetU32(b[12..]) == r.inception && GetU16(b[16..]) == r.keyTag
            && b[18..] == rest
  {
    var b := FixedFields(r) + rest;
    BigEndianRoundTrip(r.typeCovered, r.origTtl, []);
    BigEndianRoundTrip(r.keyTag, r.expiration, []);
    BigEndianRoundTrip(0, r.inception, []);
    assert b[..2] == PutU16(r.typeCovered) + [] && b[4..8] == PutU32(r.origTtl) + [];
    assert b[8..12] == PutU32(r.expiration) + [] && b[12..16] == PutU32(r.inception) + [];
    assert b[16..18] == PutU16(r.keyTag) + [];
  }

  lemma TailFields(rtype: u16, ttl: u32, rd: Str, rest: Str)
    requires |rd| < 0x1_0000
    ensures var t := Tail(rtype, ttl, rd) + rest;
            |t| >= 10 + |rd| && GetU16(t) == rtype && GetU16(t[2..]) == CLASS_INET && GetU32(t[4..]) == ttl
            && GetU16(t[8..]) == |rd| && t[10..10 + |rd|] == rd && t[10 + |rd|..] == rest
  {
    var t := Tail(rtype, ttl, rd) + rest;
    BigEndianRoundTrip(rtype, ttl, []);
    BigEndianRoundTrip(CLASS_INET, 0, []);
    BigEndianRoundTrip(|rd|, 0, []);
    assert t[..2] == PutU16(rtype) + [] && t[2..4] == PutU16(CLASS_INET) + [];
    assert t[4..8] == PutU32(ttl) + [] && t[8..10] == PutU16(|rd|) + [];
  }

  lemma RecordTail(owner: seq<Str>, rtype: u16, ttl: u32, rd: Str, rest: Str)
    requires |rd| < 0x1_0000
    ensures ParseTail(owner, Tail(rtype, ttl, rd) + rest) == Some((SignedRR(owner, rtype, CLASS_INET, ttl, rd), rest))
  {
    TailFields(rtype, ttl, rd, rest);
  }

  lemma BlockIsOwnerAndTail(w: Str, rtype: u16, ttl: u32, rd: Str, rest: Str)
    ensures Block(w, rtype, ttl, rd) + rest == w + (Tail(rtype, ttl, rd) + rest)
  {
  }

  lemma RecordRoundTrip(owner: Str, rtype: u16, ttl: u32, rd: Str, rest: Str)
    requires Packable(owner) && |rd| < 0x1_0000
    ensures ParseRecord(Block(PackOrNothing(owner), rtype, ttl, rd) + rest)
            == Some((SignedRR(LabelsOf(Canon(owner)), rtype, CLASS_INET, ttl, rd), rest))
  {
    BlockIsOwnerAndTail(PackOrNothing(owner), rtype, ttl, rd, rest);
    PackRoundTrip(owner, Tail(rtype, ttl, rd) + rest);
    RecordTail(LabelsOf(Canon(owner)), rtype, ttl, rd, rest);
  }

  /** One record of class IN (1) for each RDATA. */
  function SignedRecords(owner: Str, rtype: u16, ttl: u32, rds: seq<Str>): (r: seq<SignedRR>)
    ensures |r| == |rds|
    ensures forall i :: 0 <= i < |rds|
                        ==> r[i] == SignedRR(LabelsOf(Canon(owner)), rtype, 1, ttl, rds[i])
  {
    seq(|rds|, i requires 0 <= i < |rds| => SignedRR(LabelsOf(Canon(owner)), rtype, CLASS_INET, ttl, rds[i]))
  }

  lemma {:induction false} BlocksCons(w: Str, rtype: u16, ttl: u32, rds: seq<Str>)
    requires rds != []
    ensures Blocks(w, rtype, ttl, rds) == Block(w, rtype, ttl, rds[0]) + Blocks(w, rtype, ttl, rds[1..])
  {
    var p, l := rds[..|rds| - 1], rds[|rds| - 1];
    if |rds| == 1 {
      assert rds[..0] == [] && rds[1..] == [];
    } else {
      BlocksCons(w, rtype, ttl, p);
      var q := rds[1..];
      assert q[..|q| - 1] == p[1..] && q[|q| - 1] == l;
      var first, last := Block(w, rtype, ttl, rds[0]), Block(w, rtype, ttl, l);
      var mid := Blocks(w, rtype, ttl, p[1..]);
      assert Blocks(w, rtype, ttl, q) == mid + last;
      assert first + mid + last == first + (mid + last);
    }
  }

  lemma {:induction false} RecordsRoundTrip(owner: Str, rtype: u16, ttl: u32, rds: seq<Str>)
    requires Packable(owner)
    requires forall i :: 0 <= i < |rds| ==> |rds[i]| < 0x1_0000
    ensures ParseRecords(Blocks(PackOrNothing(owner), rtype, ttl, rds)) == Some(SignedRecords(owner, rtype, ttl, rds))
  {
    var w := PackOrNothing(owner);
    if rds == [] {
      assert SignedRecords(owner, rtype, ttl, rds) == [];
    } else {
      var rest := Blocks(w, rtype, ttl, rds[1..]);
      BlocksCons(w, rtype, ttl, rds);
      RecordRoundTrip(owner, rtype, ttl, rds[0], rest);
      RecordsRoundTrip(owner, rtype, ttl, rds[1..]);
      SignedRecordsCons(owner, rtype, ttl, rds);
      assert |Block(w, rtype, ttl, rds[0])| > 0;
    }
  }

  lemma SignedRecordsCons(owner: Str, rtype: u16, ttl: u32, rds: seq<Str>)
    requires rds != []
    ensures SignedRecords(owner, rtype, ttl, rds)
            == [SignedRR(LabelsOf(Canon(owner)), rtype, CLASS_INET, ttl, rds[0])]
               + SignedRecords(owner, rtype, ttl, rds[1..])
  {
  }

  /** RDATAs that fit the 16-bit RDLENGTH field. */
  ghost predicate RDatasFit(rrs: seq<RR>) {
    forall rd :: rd in RDatas(rrs) ==> |rd| < 0x1_0000
  }

  lemma ParseSignedLayout(r: Rrsig, rest: Str, rrs: seq<SignedRR>)
    requires Packable(r.signerName) && ParseRecords(rest) == Some(rrs)
    ensures ParseSigned(SigRDataNoSig(r) + rest)
            == Some(Signed(r.typeCovered, r.algorithm, r.labels, r.origTtl, r.expiration, r.inception, r.keyTag,
                           LabelsOf(Canon(r.signerName)), rrs))
  {
    var tail := PackOrNothing(r.signerName) + rest;
    assert SigRDataNoSig(r) + rest == FixedFields(r) + tail;
    FixedFieldsRoundTrip(r, tail);
    PackRoundTrip(r.signerName, rest);
  }

  /** What a parser finds in the signed octets. */
  function Expected(r: Rrsig, owner: Str, rrs: seq<RR>): Signed {
    Signed(r.typeCovered, r.algorithm, r.labels, r.origTtl, r.expiration, r.inception, r.keyTag,
           LabelsOf(Canon(r.signerName)),
           SignedRecords(SignedOwner(owner, r.labels), r.typeCovered, r.origTtl, CanonicalRDatas(rrs)))
  }

  /** The signed octets determine the RRSIG's fields, the signer, the signed
      owner and the RDATAs: a parser reads them all back. */
  lemma SignedOctetsDecode(r: Rrsig, owner: Str, rrs: seq<RR>)
    requires Packable(r.signerName) && Packable(SignedOwner(owner, r.labels)) && RDatasFit(rrs)
    ensures ParseSigned(SignedOctets(ParseRRSIG(r), owner, rrs)) == Some(Expected(r, owner, rrs))
  {
    var so, rds := SignedOwner(owner, r.labels), CanonicalRDatas(rrs);
    CanonicalOrder(rrs);
    forall i | 0 <= i < |rds| ensures |rds[i]| < 0x1_0000 {
      assert rds[i] in RDatas(rrs);
    }
    RecordsRoundTrip(so, r.typeCovered, r.origTtl, rds);
    ParseSignedLayout(r, Blocks(PackOrNothing(so), r.typeCovered, r.origTtl, rds),
                      SignedRecords(so, r.typeCovered, r.origTtl, rds));
  }

  /** Different RRsets, owners or signature parameters never share signed
      octets: what verifies for one cannot verify for another. */
  lemma SignedOctetsAreInjective(r: Rrsig, owner: Str, rrs: seq<RR>, r': Rrsig, owner': Str, rrs': seq<RR>)
    requires Packable(r.signerName) && Packable(SignedOwner(owner, r.labels)) && RDatasFit(rrs)
    requires Packable(r'.signerName) && Packable(SignedOwner(owner', r'.labels)) && RDatasFit(rrs')
    requires SignedOctets(ParseRRSIG(r), owner, rrs) == SignedOctets(ParseRRSIG(r'), owner', rrs')
    ensures FixedFields(r) == FixedFields(r') && Canon(r.signerName) == Canon(r'.signerName)
    ensures SameElements(RDatas(rrs), RDatas(rrs'))
    ensures RDatas(rrs) != []
            ==> Canon(SignedOwner(owner, r.labels)) == Canon(SignedOwner(owner', r'.labels))
  {
    SignedOctetsDecode(r, owner, rrs);
    SignedOctetsDecode(r', owner', rrs');
    ExpectedIsInjective(r, owner, rrs, r', owner', rrs');
  }

  lemma SameRecordsSameRDatas(o: Str, t: u16, l: u32, a: seq<Str>, o': Str, t': u16, l': u32, b: seq<Str>)
    requires SignedRecords(o, t, l, a) == SignedRecords(o', t', l', b)
    ensures a == b
    ensures a != [] ==> LabelsOf(Canon(o)) == LabelsOf(Canon(o'))
  {
    var s, s' := SignedRecords(o, t, l, a), SignedRecords(o', t', l', b);
    assert |a| == |s| == |b|;
    forall i | 0 <= i < |a| ensures a[i] == b[i] { assert s[i].rdata == s'[i].rdata; }
    if a != [] { assert s[0].owner == s'[0].owner; }
  }

  lemma ExpectedIsInjective(r: Rrsig, owner: Str, rrs: seq<RR>, r': Rrsig, owner': Str, rrs': seq<RR>)
    requires Expected(r, owner, rrs) == Expected(r', owner', rrs')
    ensures FixedFields(r) == FixedFields(r') && Canon(r.signerName) == Canon(r'.signerName)
    ensures SameElements(RDatas(rrs), RDatas(rrs'))
    ensures RDatas(rrs) != []
            ==> Canon(SignedOwner(owner, r.labels)) == Canon(SignedOwner(owner', r'.labels))
  {
    var o, o' := SignedOwner(owner, r.labels), SignedOwner(owner', r'.labels);
    SameCanonicalLabels(r.signerName, r'.signerName);
    CanonicalOrder(rrs);
    CanonicalOrder(rrs');
    SameRecordsSameRDatas(o, r.typeCovered, r.origTtl, CanonicalRDatas(rrs), o', r'.typeCovered, r'.origTtl,
                          CanonicalRDatas(rrs'));
    if RDatas(rrs) != [] {
      assert RDatas(rrs)[0] in CanonicalRDatas(rrs);
      SameCanonicalLabels(o, o');
    }
  }

  lemma SameCanonicalLabels(a: Str, b: Str)
    ensures LabelsOf(Canon(a)) == LabelsOf(Canon(b)) <==> Canon(a) == Canon(b)
  {
    CanonIsStable(a);
    CanonIsStable(b);
    DottedLabelsOf(Canon(a));
    DottedLabelsOf(Canon(b));
  }
}
