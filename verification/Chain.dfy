/** DNSSEC material of a response and the checks over it: collection by name,
    DS matching, signature lifetimes and signature verification. Hashing, key
    parsing and signature checks are parameters. Loops over Go maps pick the
    next key with `:|`, so the contracts hold for every iteration order. */
module Chain {
  import opened Ordering
  import opened Bytes
  import opened Names
  import opened RData
  import opened SignedData
  import KeyTag

  datatype KeyInfo = KeyInfo(flags: u16, protocol: byte, algorithm: byte, keyBytes: Str, keyTag: u16)
  datatype DSInfo = DSInfo(keyTag: u16, algorithm: byte, digestType: byte, digest: Str)

  /** The cryptographic library: is a public key well-formed for its algorithm,
      does a signature verify over given octets, and the DS hash functions. */
  datatype Crypto = Crypto(wellFormed: (byte, Str) -> bool, verifies: (RRSIGInfo, KeyInfo, Str) -> bool,
                           hash: (byte, Str) -> Str)

  datatype Msg = Msg(answer: seq<RR>, ns: seq<RR>)

  datatype ZoneKeys = ZoneKeys(dnskeys: map<Str, seq<KeyInfo>>, rrsigs: map<Str, seq<RRSIGInfo>>,
                               dss: map<Str, seq<DSInfo>>, byType: map<Str, map<u16, seq<RR>>>)

  const SUPPORTED: set<byte> := {5, 8, 10, 13, 14, 15}
  const DEPRECATED: set<byte> := {5, 7}

  // ----- parsing -----

  function ParseDNSKEY(c: Crypto, d: Data): Option<KeyInfo>
    requires d.DNSKEY?
  {
    if d.key == [] || d.algorithm !in SUPPORTED || !c.wellFormed(d.algorithm, d.key) then None
    else Some(KeyInfo(d.flags, d.protocol, d.algorithm, d.key,
                      KeyTag.Tag(KeyTag.KeyRData(d.flags, d.protocol, d.algorithm, d.key))))
  }

  /** Which keys parse, and as what: a key that is there and that the library
      accepts for one of six algorithms, with its fields as they are and the tag
      of its RDATA. */
  lemma KeyParsesIff(c: Crypto, d: Data, k: KeyInfo)
    requires d.DNSKEY?
    ensures ParseDNSKEY(c, d) == Some(k)
            <==> && d.key != [] && d.algorithm in {5, 8, 10, 13, 14, 15} && c.wellFormed(d.algorithm, d.key)
                 && k.flags == d.flags && k.protocol == d.protocol && k.algorithm == d.algorithm && k.keyBytes == d.key
                 && Some(k.keyTag) == TagOfRData(RRData(d))
  {
  }

  function TagOfRData(rd: Option<Str>): Option<u16> {
    if rd.Some? then Some(KeyTag.Tag(rd.value)) else None
  }

  /** What the code makes of a key whose algorithm it only lists as deprecated:
      RSASHA1-NSEC3 keys (7) never parse, whatever the library would say, while
      the same key under RSASHA1 (5) does if the library accepts it. */
  lemma AlgorithmSevenIsRefused(c: Crypto, flags: u16, protocol: byte, key: Str)
    ensures ParseDNSKEY(c, DNSKEY(flags, protocol, 7, key)).None?
    ensures ParseDNSKEY(c, DNSKEY(flags, protocol, 5, key)).Some? <==> key != [] && c.wellFormed(5, key)
  {
  }

  function ParseDS(d: Data): DSInfo
    requires d.DS?
  {
    DSInfo(d.keyTag, d.dsAlgorithm, d.digestType, if d.digest.Some? then d.digest.value else [])
  }

  function DNSKEYRData(k: KeyInfo): Str {
    KeyTag.KeyRData(k.flags, k.protocol, k.algorithm, k.keyBytes)
  }

  // ----- collection -----

  /** What a Go map of slices yields for a key: nil reads as empty. */
  function Lookup<T>(m: map<Str, seq<T>>, name: Str): seq<T> {
    if name in m then m[name] else []
  }

  function Append<T>(m: map<Str, seq<T>>, name: Str, x: T): map<Str, seq<T>> {
    m[name := Lookup(m, name) + [x]]
  }

  function ByType(m: map<Str, map<u16, seq<RR>>>, name: Str, rtype: u16): seq<RR> {
    if name in m && rtype in m[name] then m[name][rtype] else []
  }

  function Covered(zk: ZoneKeys, name: Str, rtype: u16): seq<RR> {
    ByType(zk.byType, name, rtype)
  }

  /** The keys a list of records publishes at `name`, in order. */
  function KeysAt(c: Crypto, rrs: seq<RR>, name: Str): seq<KeyInfo> {
    if rrs == [] then []
    else
      var rr := rrs[|rrs| - 1];
      KeysAt(c, rrs[..|rrs| - 1], name)
      + if Canon(rr.name) == name && rr.data.DNSKEY? && ParseDNSKEY(c, rr.data).Some?
        then [ParseDNSKEY(c, rr.data).value] else []
  }

  function SigsAt(rrs: seq<RR>, name: Str): seq<RRSIGInfo> {
    if rrs == [] then []
    else
      var rr := rrs[|rrs| - 1];
      SigsAt(rrs[..|rrs| - 1], name)
      + if Canon(rr.name) == name && rr.data.RRSIG? then [ParseRRSIG(rr.data.sig)] else []
  }

  function DSsAt(rrs: seq<RR>, name: Str): seq<DSInfo> {
    if rrs == [] then []
    else
      var rr := rrs[|rrs| - 1];
      DSsAt(rrs[..|rrs| - 1], name)
      + if Canon(rr.name) == name && rr.data.DS? then [ParseDS(rr.data)] else []
  }

  function RRsAt(rrs: seq<RR>, name: Str, rtype: u16): seq<RR> {
    if rrs == [] then []
    else
      var rr := rrs[|rrs| - 1];
      RRsAt(rrs[..|rrs| - 1], name, rtype) + if Canon(rr.name) == name && TypeOf(rr.data) == rtype then [rr] else []
  }

  ghost predicate KeysFiled(c: Crypto, rrs: seq<RR>, m: map<Str, seq<KeyInfo>>) {
    (forall n :: Lookup(m, n) == KeysAt(c, rrs, n)) && forall n :: n in m ==> m[n] != []
  }

  ghost predicate SigsFiled(rrs: seq<RR>, m: map<Str, seq<RRSIGInfo>>) {
    (forall n :: Lookup(m, n) == SigsAt(rrs, n)) && forall n :: n in m ==> m[n] != []
  }

  ghost predicate DSsFiled(rrs: seq<RR>, m: map<Str, seq<DSInfo>>) {
    (forall n :: Lookup(m, n) == DSsAt(rrs, n)) && forall n :: n in m ==> m[n] != []
  }

  ghost predicate TypesFiled(rrs: seq<RR>, m: map<Str, map<u16, seq<RR>>>) {
    forall n, t :: ByType(m, n, t) == RRsAt(rrs, n, t)
  }

  /** `zk` is what `Collect` makes of the records `rrs`: under each name exactly
      the records of that name, in order, and no empty lists. */
  ghost predicate IsCollection(c: Crypto, rrs: seq<RR>, zk: ZoneKeys) {
    KeysFiled(c, rrs, zk.dnskeys) && SigsFiled(rrs, zk.rrsigs) && DSsFiled(rrs, zk.dss) && TypesFiled(rrs, zk.byType)
  }

  const NO_ZONE_KEYS := ZoneKeys(map[], map[], map[], map[])

  lemma KeysStep(c: Crypto, rrs: seq<RR>, rr: RR, m: map<Str, seq<KeyInfo>>)
    requires KeysFiled(c, rrs, m)
    ensures if rr.data.DNSKEY? && ParseDNSKEY(c, rr.data).Some?
            then KeysFiled(c, rrs + [rr], Append(m, Canon(rr.name), ParseDNSKEY(c, rr.data).value))
            else KeysFiled(c, rrs + [rr], m)
  {
    assert (rrs + [rr])[..|rrs|] == rrs;
  }

  lemma SigsStep(rrs: seq<RR>, rr: RR, m: map<Str, seq<RRSIGInfo>>)
    requires SigsFiled(rrs, m)
    ensures if rr.data.RRSIG? then SigsFiled(rrs + [rr], Append(m, Canon(rr.name), ParseRRSIG(rr.data.sig)))
            else SigsFiled(rrs + [rr], m)
  {
    assert (rrs + [rr])[..|rrs|] == rrs;
  }

  lemma DSsStep(rrs: seq<RR>, rr: RR, m: map<Str, seq<DSInfo>>)
    requires DSsFiled(rrs, m)
    ensures if rr.data.DS? then DSsFiled(rrs + [rr], Append(m, Canon(rr.name), ParseDS(rr.data)))
            else DSsFiled(rrs + [rr], m)
  {
    assert (rrs + [rr])[..|rrs|] == rrs;
  }

  /** `ByType[name][type] = append(ByType[name][type], rr)`. */
  function FileByType(m: map<Str, map<u16, seq<RR>>>, rr: RR): map<Str, map<u16, seq<RR>>> {
    var name, t := Canon(rr.name), TypeOf(rr.data);
    m[name := (if name in m then m[name] else map[])[t := ByType(m, name, t) + [rr]]]
  }

  lemma FileByTypeAt(m: map<Str, map<u16, seq<RR>>>, rr: RR, n: Str, t: u16)
    ensures ByType(FileByType(m, rr), n, t)
            == ByType(m, n, t) + if Canon(rr.name) == n && TypeOf(rr.data) == t then [rr] else []
  {
  }

  lemma TypesStep(rrs: seq<RR>, rr: RR, m: map<Str, map<u16, seq<RR>>>)
    requires TypesFiled(rrs, m)
    ensures TypesFiled(rrs + [rr], FileByType(m, rr))
  {
    forall n, t ensures ByType(FileByType(m, rr), n, t) == RRsAt(rrs + [rr], n, t) {
      FileByTypeAt(m, rr, n, t);
      assert (rrs + [rr])[..|rrs|] == rrs;
    }
  }

  /** One round of the loops of `Collect`. */
  function AddRecord(c: Crypto, zk: ZoneKeys, rr: RR): ZoneKeys {
    var name, filed := Canon(rr.name), zk.(byType := FileByType(zk.byType, rr));
    if rr.data.DNSKEY? then
      match ParseDNSKEY(c, rr.data)
      case Some(k) => filed.(dnskeys := Append(zk.dnskeys, name, k))
      case None => filed
    else if rr.data.RRSIG? then filed.(rrsigs := Append(zk.rrsigs, name, ParseRRSIG(rr.data.sig)))
    else if rr.data.DS? then filed.(dss := Append(zk.dss, name, ParseDS(rr.data)))
    else filed
  }

  function Collected(c: Crypto, rrs: seq<RR>): ZoneKeys {
    if rrs == [] then NO_ZONE_KEYS else AddRecord(c, Collected(c, rrs[..|rrs| - 1]), rrs[|rrs| - 1])
  }

  lemma AddRecordFiles(c: Crypto, zk: ZoneKeys, rr: RR, rrs: seq<RR>)
    requires IsCollection(c, rrs, zk)
    ensures IsCollection(c, rrs + [rr], AddRecord(c, zk, rr))
  {
    KeysStep(c, rrs, rr, zk.dnskeys);
    SigsStep(rrs, rr, zk.rrsigs);
    DSsStep(rrs, rr, zk.dss);
    TypesStep(rrs, rr, zk.byType);
  }

  lemma {:induction false} CollectedFiles(c: Crypto, rrs: seq<RR>)
    ensures IsCollection(c, rrs, Collected(c, rrs))
  {
    if rrs != [] {
      var p, rr := rrs[..|rrs| - 1], rrs[|rrs| - 1];
      assert p + [rr] == rrs;
      CollectedFiles(c, p);
      AddRecordFiles(c, Collected(c, p), rr, p);
    }
  }

  lemma CollectedNext(c: Crypto, rrs: seq<RR>, sec: seq<RR>, i: nat)
    requires i < |sec|
    ensures Collected(c, rrs + sec[..i + 1]) == AddRecord(c, Collected(c, rrs + sec[..i]), sec[i])
  {
    var all := rrs + sec[..i + 1];
    assert all[..|all| - 1] == rrs + sec[..i] && all[|all| - 1] == sec[i];
  }

  method CollectSection(c: Crypto, zk: ZoneKeys, sec: seq<RR>, ghost rrs: seq<RR>) returns (zk': ZoneKeys)
    requires zk == Collected(c, rrs)
    ensures zk' == Collected(c, rrs + sec)
  {
    zk' := zk;
    assert rrs + sec[..0] == rrs;
    for i := 0 to |sec|
      invariant zk' == Collected(c, rrs + sec[..i])
    {
      CollectedNext(c, rrs, sec, i);
      zk' := AddRecord(c, zk', sec[i]);
    }
    assert sec[..|sec|] == sec;
  }

  /** `Collect`: the answer section, then the authority section. */
  method Collect(c: Crypto, resp: Msg) returns (zk: ZoneKeys)
    ensures zk == Collected(c, resp.answer + resp.ns)
    ensures IsCollection(c, resp.answer + resp.ns, zk)
  {
    zk := CollectSection(c, NO_ZONE_KEYS, resp.answer, []);
    assert [] + resp.answer == resp.answer;
    zk := CollectSection(c, zk, resp.ns, resp.answer);
    CollectedFiles(c, resp.answer + resp.ns);
  }

  // ----- restriction to the zone's own signatures -----

  /** The signatures of a list whose signer is the zone (`strings.EqualFold`). */
  function SignedBy(ss: seq<RRSIGInfo>, apex: Str): seq<RRSIGInfo> {
    if ss == [] then []
    else
      SignedBy(ss[..|ss| - 1], apex)
      + if Lower(ss[|ss| - 1].signerName) == Lower(apex) then [ss[|ss| - 1]] else []
  }

  method FilterSigs(ss: seq<RRSIGInfo>, apex: Str) returns (out: seq<RRSIGInfo>)
    ensures out == SignedBy(ss, apex)
  {
    out := [];
    for i := 0 to |ss|
      invariant out == SignedBy(ss[..i], apex)
    {
      assert ss[..i + 1][..i] == ss[..i];
      if Lower(ss[i].signerName) == Lower(apex) {
        out := out + [ss[i]];
      }
    }
    assert ss[..|ss|] == ss;
  }

  /** `InZone`: keys and DS as they are, signatures only if signed by the zone. */
  method InZone(z: ZoneKeys, zone: Str) returns (out: ZoneKeys)
    ensures out.dnskeys == z.dnskeys && out.dss == z.dss && out.byType == z.byType
    ensures forall n :: Lookup(out.rrsigs, n) == SignedBy(Lookup(z.rrsigs, n), Canon(zone))
    ensures forall n :: n in out.rrsigs ==> out.rrsigs[n] != []
  {
    var apex := Canon(zone);
    var sigs: map<Str, seq<RRSIGInfo>> := map[];
    var todo := z.rrsigs.Keys;
    while todo != {}
      invariant todo <= z.rrsigs.Keys
      invariant forall n :: n !in todo ==> Lookup(sigs, n) == SignedBy(Lookup(z.rrsigs, n), apex)
      invariant forall n :: n in sigs ==> n !in todo && sigs[n] != []
      decreases todo
    {
      var name :| name in todo;
      todo := todo - {name};
      var ss := FilterSigs(z.rrsigs[name], apex);
      if ss != [] {
        sigs := sigs[name := ss];
      }
    }
    out := z.(rrsigs := sigs);
  }

  ghost predicate HasSig(zk: ZoneKeys, s: RRSIGInfo) {
    exists n :: n in zk.rrsigs && s in zk.rrsigs[n]
  }

  /** `mergeSigs` and `allSigs`: all signatures, in any order of the names. */
  method MergeSigs(zk: ZoneKeys) returns (out: seq<RRSIGInfo>)
    ensures forall s :: s in out <==> HasSig(zk, s)
  {
    out := [];
    var todo := zk.rrsigs.Keys;
    while todo != {}
      invariant todo <= zk.rrsigs.Keys
      invariant forall s :: s in out <==> exists n :: n in zk.rrsigs && n !in todo && s in zk.rrsigs[n]
      decreases todo
    {
      var name :| name in todo;
      todo := todo - {name};
      out := out + zk.rrsigs[name];
    }
  }

  // ----- lifetimes -----

  predicate Expired(s: RRSIGInfo, now: int) {
    now > s.expiration
  }

  predicate NotYetValid(s: RRSIGInfo, now: int) {
    now < s.inception
  }

  // ----- DS against DNSKEY -----

  /** `ComputeDSDigest`; `None` is the error for an unknown digest type. */
  function ComputeDSDigest(c: Crypto, digestType: byte, owner: Str, rdata: Str): Option<Str> {
    if digestType in {1, 2, 3} then Some(c.hash(digestType, PackOrNothing(owner) + rdata)) else None
  }

  predicate DigestMatches(c: Crypto, ds: DSInfo, owner: Str, k: KeyInfo) {
    ComputeDSDigest(c, ds.digestType, owner, DNSKEYRData(k)) == Some(ds.digest)
  }

  /** The octets read as the RDATA of the key. */
  predicate IsKey(rd: Str, k: KeyInfo) {
    DecodeData(TYPE_DNSKEY, rd) == Some(DNSKEY(k.flags, k.protocol, k.algorithm, k.keyBytes))
  }

  /** The octets read as the canonical owner name followed by the RDATA of the key
      (section 5.1.4 of RFC 4034); of an owner that does not pack the code leaves
      the name out. */
  predicate IsOwnerAndKey(o: Str, owner: Str, k: KeyInfo) {
    if Packable(owner) then
      match ParseName(o)
      case None => false
      case Some((ls, rest)) => ls == OwnerLabels(owner) && IsKey(rest, k)
    else IsKey(o, k)
  }

  function OwnerLabels(owner: Str): seq<Str> {
    CanonIsStable(owner);
    LabelsOf(Canon(owner))
  }

  /** The DS is the digest, under one of the three known types, of those octets. */
  ghost predicate IsDigestOf(c: Crypto, ds: DSInfo, owner: Str, k: KeyInfo) {
    ds.digestType in {1, 2, 3} && exists o :: IsOwnerAndKey(o, owner, k) && ds.digest == c.hash(ds.digestType, o)
  }

  lemma KeyOctets(rd: Str, k: KeyInfo)
    ensures IsKey(rd, k) <==> rd == DNSKEYRData(k)
  {
    var d := DNSKEY(k.flags, k.protocol, k.algorithm, k.keyBytes);
    KeyRoundTrip(d);
    assert RRData(d).value == DNSKEYRData(k);
    if IsKey(rd, k) {
      PutOfGet(rd);
      assert rd == rd[..2] + [rd[2], rd[3]] + rd[4..];
    }
  }

  lemma OwnerAndKeyOctets(o: Str, owner: Str, k: KeyInfo)
    ensures IsOwnerAndKey(o, owner, k) <==> o == PackOrNothing(owner) + DNSKEYRData(k)
  {
    if Packable(owner) {
      PackRoundTrip(owner, DNSKEYRData(k));
      KeyOctets(DNSKEYRData(k), k);
      if IsOwnerAndKey(o, owner, k) {
        ParsedIsWire(o);
        KeyOctets(ParseName(o).value.1, k);
      }
    } else {
      KeyOctets(o, k);
      assert PackOrNothing(owner) + DNSKEYRData(k) == DNSKEYRData(k);
    }
  }

  /** The comparison of the code is that of section 5.1.4 of RFC 4034. */
  lemma DigestIsOfOwnerAndKey(c: Crypto, ds: DSInfo, owner: Str, k: KeyInfo)
    ensures DigestMatches(c, ds, owner, k) <==> IsDigestOf(c, ds, owner, k)
  {
    OwnerAndKeyOctets(PackOrNothing(owner) + DNSKEYRData(k), owner, k);
    forall o | IsOwnerAndKey(o, owner, k) ensures o == PackOrNothing(owner) + DNSKEYRData(k) {
      OwnerAndKeyOctets(o, owner, k);
    }
  }

  /** A DS of the anchor at `name` is the digest of a zone key at `name`. */
  ghost predicate Anchored(c: Crypto, anchor: ZoneKeys, zone: ZoneKeys, name: Str) {
    exists ds, k :: ds in Lookup(anchor.dss, name) && k in Lookup(zone.dnskeys, name) && IsDigestOf(c, ds, name, k)
  }

  /** The names `apexName` may return: a DS owner with keys if there is one,
      else any DS owner, else the empty string. */
  ghost predicate IsApex(zk: ZoneKeys, name: Str) {
    if exists n :: n in zk.dss && n in zk.dnskeys then name in zk.dss && name in zk.dnskeys
    else if zk.dss.Keys != {} then name in zk.dss
    else name == []
  }

  method ApexName(zk: ZoneKeys) returns (name: Str)
    ensures IsApex(zk, name)
  {
    var todo := zk.dss.Keys;
    while todo != {}
      invariant todo <= zk.dss.Keys
      invariant forall n :: n in zk.dss && n !in todo ==> n !in zk.dnskeys
      decreases todo
    {
      var n :| n in todo;
      if n in zk.dnskeys {
        return n;
      }
      todo := todo - {n};
    }
    if zk.dss.Keys != {} {
      var n :| n in zk.dss.Keys;
      return n;
    }
    name := [];
  }

  /** What the two loops of `apexName` return when Go hands out the DS owners in
      the order `first` to one and `again` to the other. */
  function ApexInOrder(zk: ZoneKeys, first: seq<Str>, again: seq<Str>): Str {
    if first == [] then
      if again == [] then [] else again[0]
    else if first[0] in zk.dnskeys then first[0]
    else ApexInOrder(zk, first[1..], again)
  }

  lemma {:induction false} ApexOfOrder(zk: ZoneKeys, first: seq<Str>, again: seq<Str>)
    ensures var a := ApexInOrder(zk, first, again);
            if exists n :: n in first && n in zk.dnskeys then a in first && a in zk.dnskeys
            else a == if again == [] then [] else again[0]
  {
    if first != [] && first[0] !in zk.dnskeys {
      ApexOfOrder(zk, first[1..], again);
      assert first == [first[0]] + first[1..];
    }
  }

  /** `IsApex` is exact: these names, and no others, come up under some order. */
  lemma ApexIffSomeOrder(zk: ZoneKeys, name: Str)
    ensures IsApex(zk, name)
            <==> exists first, again :: IsArrangement(first, zk.dss.Keys) && IsArrangement(again, zk.dss.Keys)
                                        && ApexInOrder(zk, first, again) == name
  {
    if first, again :| IsArrangement(first, zk.dss.Keys) && IsArrangement(again, zk.dss.Keys)
                       && ApexInOrder(zk, first, again) == name {
      ApexOfOrder(zk, first, again);
      assert again != [] ==> again[0] in again;
    }
    if IsApex(zk, name) {
      var first := [];
      if zk.dss.Keys != {} {
        first := ArrangeFirst(zk.dss.Keys, name);
      }
      ApexOfOrder(zk, first, first);
      assert ApexInOrder(zk, first, first) == name;
    }
  }

  /** The inner loop of `verifyDSMatchesDNSKEY`. */
  method SomeKeyMatches(c: Crypto, ds: DSInfo, apex: Str, keys: seq<KeyInfo>) returns (found: bool)
    ensures found <==> MatchedBy(c, ds, apex, keys)
  {
    for j := 0 to |keys|
      invariant forall k :: k in keys[..j] ==> !IsDigestOf(c, ds, apex, k)
    {
      DigestIsOfOwnerAndKey(c, ds, apex, keys[j]);
      if DigestMatches(c, ds, apex, keys[j]) {
        return true;
      }
    }
    assert keys[..|keys|] == keys;
    return false;
  }

  ghost predicate MatchedBy(c: Crypto, ds: DSInfo, apex: Str, keys: seq<KeyInfo>) {
    exists k :: k in keys && IsDigestOf(c, ds, apex, k)
  }

  method VerifyDSMatchesDNSKEY(c: Crypto, anchor: ZoneKeys, zone: ZoneKeys) returns (matches: bool)
    ensures exists apex :: IsApex(zone, apex) && (matches <==> Anchored(c, anchor, zone, apex))
  {
    var apex := ApexName(zone);
    var dsSet, keys := Lookup(anchor.dss, apex), Lookup(zone.dnskeys, apex);
    matches := false;
    for i := 0 to |dsSet|
      invariant matches <==> exists ds :: ds in dsSet[..i] && MatchedBy(c, ds, apex, keys)
    {
      assert dsSet[..i + 1] == dsSet[..i] + [dsSet[i]];
      if !matches {
        matches := SomeKeyMatches(c, dsSet[i], apex, keys);
      }
    }
    assert dsSet[..|dsSet|] == dsSet;
    AnchoredIsMatchedBy(c, anchor, zone, apex);
  }

  lemma AnchoredIsMatchedBy(c: Crypto, anchor: ZoneKeys, zone: ZoneKeys, apex: Str)
    ensures Anchored(c, anchor, zone, apex)
            <==> exists ds :: ds in Lookup(anchor.dss, apex) && MatchedBy(c, ds, apex, Lookup(zone.dnskeys, apex))
  {
  }

  /** `ChainResult`; `mismatch` stands for the reason the code writes into it. */
  datatype ChainResult = ChainResult(valid: bool, mismatch: bool, keys: seq<KeyInfo>, sigs: seq<RRSIGInfo>,
                                     dsMatches: bool, expired: seq<nat>, notYet: seq<nat>, deprecated: seq<nat>)

  ghost predicate HasKeyInfo(zk: ZoneKeys, k: KeyInfo) {
    exists n :: n in zk.dnskeys && k in zk.dnskeys[n]
  }

  /** `mergeKeys`. */
  method MergeKeys(zk: ZoneKeys) returns (out: seq<KeyInfo>)
    ensures forall k :: k in out <==> HasKeyInfo(zk, k)
  {
    out := [];
    var todo := zk.dnskeys.Keys;
    while todo != {}
      invariant todo <= zk.dnskeys.Keys
      invariant forall k :: k in out <==> exists n :: n in zk.dnskeys && n !in todo && k in zk.dnskeys[n]
      decreases todo
    {
      var name :| name in todo;
      todo := todo - {name};
      out := out + zk.dnskeys[name];
    }
  }

  datatype Fault = IsExpired | IsEarly | IsDeprecated

  predicate HasFault(s: RRSIGInfo, now: int, fault: Fault) {
    match fault
    case IsExpired => Expired(s, now)
    case IsEarly => NotYetValid(s, now)
    case IsDeprecated => s.algorithm in DEPRECATED
  }

  /** The positions of the signatures with a fault, in order. */
  function Positions(sigs: seq<RRSIGInfo>, now: int, fault: Fault): seq<nat> {
    if sigs == [] then []
    else
      Positions(sigs[..|sigs| - 1], now, fault)
      + if HasFault(sigs[|sigs| - 1], now, fault) then [|sigs| - 1] else []
  }

  /** They are exactly those positions, each once. */
  lemma {:induction false} PositionsAre(sigs: seq<RRSIGInfo>, now: int, fault: Fault)
    ensures var p := Positions(sigs, now, fault);
            && (forall i: nat :: i in p <==> i < |sigs| && HasFault(sigs[i], now, fault))
            && forall i, j :: 0 <= i < j < |p| ==> p[i] < p[j]
  {
    if sigs != [] {
      PositionsAre(sigs[..|sigs| - 1], now, fault);
      var p := Positions(sigs[..|sigs| - 1], now, fault);
      forall i | 0 <= i < |p| ensures p[i] < |sigs| - 1 { assert p[i] in p; }
    }
  }

  /** The loop of `ValidateChain` over the signatures. */
  method CheckSigTimes(sigs: seq<RRSIGInfo>, now: int)
    returns (valid: bool, expired: seq<nat>, notYet: seq<nat>, deprecated: seq<nat>)
    ensures valid <==> forall s :: s in sigs ==> !Expired(s, now) && !NotYetValid(s, now)
    ensures expired == Positions(sigs, now, IsExpired) && notYet == Positions(sigs, now, IsEarly)
    ensures deprecated == Positions(sigs, now, IsDeprecated)
  {
    valid, expired, notYet, deprecated := true, [], [], [];
    for i := 0 to |sigs|
      invariant valid <==> forall s :: s in sigs[..i] ==> !Expired(s, now) && !NotYetValid(s, now)
      invariant expired == Positions(sigs[..i], now, IsExpired) && notYet == Positions(sigs[..i], now, IsEarly)
      invariant deprecated == Positions(sigs[..i], now, IsDeprecated)
    {
      assert sigs[..i + 1] == sigs[..i] + [sigs[i]];
      assert sigs[..i + 1][..i] == sigs[..i];
      if Expired(sigs[i], now) {
        expired, valid := expired + [i], false;
      }
      if NotYetValid(sigs[i], now) {
        notYet, valid := notYet + [i], false;
      }
      if sigs[i].algorithm in DEPRECATED {
        deprecated := deprecated + [i];
      }
    }
    assert sigs[..|sigs|] == sigs;
  }

  /** `ValidateChain`. The chain is valid exactly when every signature is within
      its lifetime and the DS records, if both sides have any, match; the index
      lists name exactly the bad signatures among the merged ones. */
  method ValidateChain(c: Crypto, anchor: ZoneKeys, zk: ZoneKeys, now: int) returns (res: ChainResult)
    ensures exists apex :: IsApex(zk, apex) && (res.dsMatches <==> Anchored(c, anchor, zk, apex))
    ensures res.mismatch <==> !res.dsMatches && zk.dss.Keys != {} && anchor.dss.Keys != {}
    ensures res.valid <==> !res.mismatch && forall s :: HasSig(zk, s) ==> !Expired(s, now) && !NotYetValid(s, now)
    ensures (forall k :: k in res.keys <==> HasKeyInfo(zk, k)) && (forall s :: s in res.sigs <==> HasSig(zk, s))
    ensures res.expired == Positions(res.sigs, now, IsExpired) && res.notYet == Positions(res.sigs, now, IsEarly)
    ensures res.deprecated == Positions(res.sigs, now, IsDeprecated)
  {
    var keys := MergeKeys(zk);
    var sigs := MergeSigs(zk);
    var dsMatches := VerifyDSMatchesDNSKEY(c, anchor, zk);
    var valid, expired, notYet, deprecated := CheckSigTimes(sigs, now);
    var mismatch := !dsMatches && zk.dss.Keys != {} && anchor.dss.Keys != {};
    res := ChainResult(valid && !mismatch, mismatch, keys, sigs, dsMatches, expired, notYet, deprecated);
  }

  // ----- findings of the DNSSEC checks -----

  /** DNS-DNSSEC findings, each with the values its evidence carries. */
  datatype Issue =
    | NoDNSKEY001
    | NoRRSIG002
    | Expired003(sig: RRSIGInfo)
    | NotYetValid004(sig: RRSIGInfo)
    | DeprecatedAlgorithm005(sig: RRSIGInfo)
    | BrokenChain006(mismatch: bool)
    | NoDS007
    | InvalidSignature010(name: Str, rtype: u16, keyTag: u16)
    | Validated011(verified: nat)

  /** The presence and lifetime findings, all and only those due. */
  ghost predicate ZoneIssues(zk: ZoneKeys, now: int, out: seq<Issue>) {
    && (NoDNSKEY001 in out <==> zk.rrsigs.Keys != {} && zk.dnskeys.Keys == {})
    && (NoRRSIG002 in out <==> zk.dnskeys.Keys != {} && zk.rrsigs.Keys == {})
    && (forall s :: Expired003(s) in out <==> HasSig(zk, s) && Expired(s, now))
    && (forall s :: NotYetValid004(s) in out <==> HasSig(zk, s) && NotYetValid(s, now))
    && (forall s :: DeprecatedAlgorithm005(s) in out <==> HasSig(zk, s) && s.algorithm in DEPRECATED)
    && (forall i :: i in out ==> !IsVerdict(i))
  }

  predicate IsVerdict(i: Issue) {
    i.BrokenChain006? || i.NoDS007? || i.InvalidSignature010? || i.Validated011?
  }

  function SigIssues(s: RRSIGInfo, now: int): (out: seq<Issue>)
    ensures forall i :: i in out <==> (i == Expired003(s) && Expired(s, now))
                                      || (i == NotYetValid004(s) && NotYetValid(s, now))
                                      || (i == DeprecatedAlgorithm005(s) && s.algorithm in DEPRECATED)
  {
    (if Expired(s, now) then [Expired003(s)] else [])
    + (if NotYetValid(s, now) then [NotYetValid004(s)] else [])
    + (if s.algorithm in DEPRECATED then [DeprecatedAlgorithm005(s)] else [])
  }

  /** The loop of `CheckZone` over all signatures. */
  method CheckLifetimes(zk: ZoneKeys, now: int) returns (out: seq<Issue>)
    ensures forall i :: i in out <==> exists s :: HasSig(zk, s) && i in SigIssues(s, now)
  {
    out := [];
    var sigs := MergeSigs(zk);
    for k := 0 to |sigs|
      invariant forall i :: i in out <==> exists s :: s in sigs[..k] && i in SigIssues(s, now)
    {
      assert sigs[..k + 1] == sigs[..k] + [sigs[k]];
      out := out + SigIssues(sigs[k], now);
    }
    assert sigs[..|sigs|] == sigs;
  }

  /** Presence of keys without signatures, or of signatures without keys. */
  method CheckPresence(zk: ZoneKeys) returns (out: seq<Issue>)
    ensures forall i :: i in out <==> (i == NoDNSKEY001 && zk.rrsigs.Keys != {} && zk.dnskeys.Keys == {})
                                      || (i == NoRRSIG002 && zk.dnskeys.Keys != {} && zk.rrsigs.Keys == {})
  {
    out := [];
    if zk.rrsigs.Keys != {} && zk.dnskeys.Keys == {} {
      out := out + [NoDNSKEY001];
    }
    if zk.dnskeys.Keys != {} && zk.rrsigs.Keys == {} {
      out := out + [NoRRSIG002];
    }
  }

  lemma BothParts(zk: ZoneKeys, now: int, presence: seq<Issue>, lifetimes: seq<Issue>, i: Issue)
    requires i in presence ==> i == NoDNSKEY001 || i == NoRRSIG002
    requires i in lifetimes <==> exists s :: HasSig(zk, s) && i in SigIssues(s, now)
    ensures i == NoDNSKEY001 || i == NoRRSIG002 ==> (i in presence + lifetimes <==> i in presence)
    ensures i.Expired003? ==> (i in presence + lifetimes <==> HasSig(zk, i.sig) && Expired(i.sig, now))
    ensures i.NotYetValid004? ==> (i in presence + lifetimes <==> HasSig(zk, i.sig) && NotYetValid(i.sig, now))
    ensures i.DeprecatedAlgorithm005?
            ==> (i in presence + lifetimes <==> HasSig(zk, i.sig) && i.sig.algorithm in DEPRECATED)
    ensures i in presence + lifetimes ==> !IsVerdict(i)
  {
  }

  /** `CheckZone`. */
  method CheckZone(zk: ZoneKeys, now: int) returns (out: seq<Issue>)
    ensures ZoneIssues(zk, now, out)
  {
    var presence := CheckPresence(zk);
    var lifetimes := CheckLifetimes(zk, now);
    out := presence + lifetimes;
    forall i: Issue
      ensures i == NoDNSKEY001 || i == NoRRSIG002 ==> (i in out <==> i in presence)
      ensures i.Expired003? ==> (i in out <==> HasSig(zk, i.sig) && Expired(i.sig, now))
      ensures i.NotYetValid004? ==> (i in out <==> HasSig(zk, i.sig) && NotYetValid(i.sig, now))
      ensures i.DeprecatedAlgorithm005? ==> (i in out <==> HasSig(zk, i.sig) && i.sig.algorithm in DEPRECATED)
      ensures i in out ==> !IsVerdict(i)
    {
      BothParts(zk, now, presence, lifetimes, i);
    }
  }

  // ----- signature verification -----

  ghost predicate KeyWithTag(zk: ZoneKeys, tag: u16, k: KeyInfo) {
    k.keyTag == tag && exists n :: n in zk.dnskeys && k in zk.dnskeys[n]
  }

  ghost predicate HasTag(zk: ZoneKeys, tag: u16) {
    exists k :: KeyWithTag(zk, tag, k)
  }

  /** No two different keys of the collection share a tag. */
  ghost predicate UniqueTags(zk: ZoneKeys) {
    forall tag, k, k' :: KeyWithTag(zk, tag, k) && KeyWithTag(zk, tag, k') ==> k == k'
  }

  method FirstWithTag(ks: seq<KeyInfo>, tag: u16) returns (k: Option<KeyInfo>)
    ensures k.Some? ==> k.value in ks && k.value.keyTag == tag
    ensures k.None? ==> forall x :: x in ks ==> x.keyTag != tag
  {
    for i := 0 to |ks|
      invariant forall x :: x in ks[..i] ==> x.keyTag != tag
    {
      if ks[i].keyTag == tag {
        return Some(ks[i]);
      }
    }
    assert ks[..|ks|] == ks;
    return None;
  }

  /** `keyForKeyTag`: the first hit in whatever order the names come. */
  method KeyForKeyTag(zk: ZoneKeys, tag: u16) returns (k: Option<KeyInfo>)
    ensures k.Some? ==> KeyWithTag(zk, tag, k.value)
    ensures k.None? <==> !HasTag(zk, tag)
  {
    var todo := zk.dnskeys.Keys;
    while todo != {}
      invariant todo <= zk.dnskeys.Keys
      invariant forall n, x :: n in zk.dnskeys && n !in todo && x in zk.dnskeys[n] ==> x.keyTag != tag
      decreases todo
    {
      var name :| name in todo;
      todo := todo - {name};
      k := FirstWithTag(zk.dnskeys[name], tag);
      if k.Some? {
        assert KeyWithTag(zk, tag, k.value);
        return;
      }
    }
    k := None;
  }

  /** `Verify` over the octets that `sig` covers in this response. */
  predicate Verifies(c: Crypto, zk: ZoneKeys, name: Str, rtype: u16, sig: RRSIGInfo, k: KeyInfo) {
    k.algorithm in SUPPORTED && c.verifies(sig, k, SignedOctets(sig, name, Covered(zk, name, rtype)))
  }

  /** The key has the signature's tag, and the library rejects the signature over
      the records it covers here, or cannot be asked. */
  ghost predicate FailsUnder(c: Crypto, zk: ZoneKeys, name: Str, sig: RRSIGInfo, k: KeyInfo) {
    && (exists n :: k in Lookup(zk.dnskeys, n)) && k.keyTag == sig.keyTag
    && (k.algorithm !in {5, 8, 10, 13, 14, 15}
        || !c.verifies(sig, k, SignedOctets(sig, name, Covered(zk, name, sig.typeCovered))))
  }

  /** Some key with the signature's tag accepts, respectively rejects, it. */
  ghost predicate Accepted(c: Crypto, zk: ZoneKeys, name: Str, rtype: u16, sig: RRSIGInfo) {
    exists k :: KeyWithTag(zk, sig.keyTag, k) && Verifies(c, zk, name, rtype, sig, k)
  }

  ghost predicate Rejected(c: Crypto, zk: ZoneKeys, name: Str, rtype: u16, sig: RRSIGInfo) {
    exists k :: KeyWithTag(zk, sig.keyTag, k) && !Verifies(c, zk, name, rtype, sig, k)
  }

  ghost predicate Covers(zk: ZoneKeys, name: Str, rtype: u16, sig: RRSIGInfo) {
    sig in Lookup(zk.rrsigs, name) && sig.typeCovered == rtype && HasTag(zk, sig.keyTag)
  }

  /** Every covering signature whose key is known is accepted. */
  ghost predicate AllAccepted(c: Crypto, zk: ZoneKeys, name: Str, rtype: u16) {
    forall sig :: Covers(zk, name, rtype, sig) ==> Accepted(c, zk, name, rtype, sig)
  }

  ghost predicate SomeRejected(c: Crypto, zk: ZoneKeys, name: Str, rtype: u16) {
    exists sig :: Covers(zk, name, rtype, sig) && Rejected(c, zk, name, rtype, sig)
  }

  lemma RejectedFails(c: Crypto, zk: ZoneKeys, name: Str, rtype: u16, sig: RRSIGInfo)
    requires sig.typeCovered == rtype && Rejected(c, zk, name, rtype, sig)
    ensures exists k :: FailsUnder(c, zk, name, sig, k)
  {
    var k :| KeyWithTag(zk, sig.keyTag, k) && !Verifies(c, zk, name, rtype, sig, k);
    var n :| n in zk.dnskeys && k in zk.dnskeys[n];
    assert k in Lookup(zk.dnskeys, n);
    assert FailsUnder(c, zk, name, sig, k);
  }

  lemma {:induction false} CollectedKeysAreSupported(c: Crypto, rrs: seq<RR>, n: Str)
    ensures forall k :: k in KeysAt(c, rrs, n) ==> k.algorithm in {5, 8, 10, 13, 14, 15}
  {
    if rrs != [] {
      CollectedKeysAreSupported(c, rrs[..|rrs| - 1], n);
      var d := rrs[|rrs| - 1].data;
      if d.DNSKEY? && ParseDNSKEY(c, d).Some? {
        KeyParsesIff(c, d, ParseDNSKEY(c, d).value);
      }
    }
  }

  /** With unique tags the outcome of a check is determined. */
  lemma OutcomeIsDetermined(c: Crypto, zk: ZoneKeys, name: Str, rtype: u16)
    requires UniqueTags(zk)
    ensures AllAccepted(c, zk, name, rtype) <==> !SomeRejected(c, zk, name, rtype)
  {
    if !AllAccepted(c, zk, name, rtype) {
      var sig :| Covers(zk, name, rtype, sig) && !Accepted(c, zk, name, rtype, sig);
      var k :| KeyWithTag(zk, sig.keyTag, k);
      assert Rejected(c, zk, name, rtype, sig);
    }
  }

  /** `VerifyRRSIGForType`: -1 if every covering signature with a known key is
      accepted, else the index of one that is rejected. */
  method VerifyRRSIGForType(c: Crypto, zk: ZoneKeys, name: Str, rtype: u16) returns (idx: int)
    ensures -1 <= idx < |Lookup(zk.rrsigs, name)|
    ensures idx == -1 ==> AllAccepted(c, zk, name, rtype)
    ensures idx >= 0 ==> var sig := Lookup(zk.rrsigs, name)[idx];
                         Covers(zk, name, rtype, sig) && Rejected(c, zk, name, rtype, sig)
    ensures forall j :: 0 <= j < idx && Covers(zk, name, rtype, Lookup(zk.rrsigs, name)[j])
                        ==> Accepted(c, zk, name, rtype, Lookup(zk.rrsigs, name)[j])
    ensures idx >= 0 ==> exists k :: FailsUnder(c, zk, name, Lookup(zk.rrsigs, name)[idx], k)
  {
    var sigs, rrs := Lookup(zk.rrsigs, name), Covered(zk, name, rtype);
    for i := 0 to |sigs|
      invariant forall j :: 0 <= j < i && Covers(zk, name, rtype, sigs[j]) ==> Accepted(c, zk, name, rtype, sigs[j])
    {
      if sigs[i].typeCovered != rtype {
        continue;
      }
      var key := KeyForKeyTag(zk, sigs[i].keyTag);
      if key.None? {
        continue;
      }
      var data := BuildSignedData(sigs[i], name, rrs);
      if !(key.value.algorithm in SUPPORTED && c.verifies(sigs[i], key.value, data)) {
        assert KeyWithTag(zk, sigs[i].keyTag, key.value) && !Verifies(c, zk, name, rtype, sigs[i], key.value);
        RejectedFails(c, zk, name, rtype, sigs[i]);
        return i;
      }
      assert KeyWithTag(zk, sigs[i].keyTag, key.value) && Verifies(c, zk, name, rtype, sigs[i], key.value);
    }
    return -1;
  }
}
