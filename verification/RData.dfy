/** Resource records, their canonical RDATA (section 6.2 of RFC 4034), decoders
    written from the RFCs, and the record key used for deduplication. */
module RData {
  import opened Ordering
  import opened Bytes
  import opened Names
  import TypeBitmap

  const TYPE_A: u16 := 1
  const TYPE_NS: u16 := 2
  const TYPE_CNAME: u16 := 5
  const TYPE_SOA: u16 := 6
  const TYPE_PTR: u16 := 12
  const TYPE_MX: u16 := 15
  const TYPE_TXT: u16 := 16
  const TYPE_AAAA: u16 := 28
  const TYPE_SRV: u16 := 33
  const TYPE_DS: u16 := 43
  const TYPE_RRSIG: u16 := 46
  const TYPE_NSEC: u16 := 47
  const TYPE_DNSKEY: u16 := 48
  const TYPE_NSEC3: u16 := 50
  const TYPE_CAA: u16 := 257

  /** Types for which the code has no record structure of its own. */
  type OtherType = c: u16 | c !in {1, 2, 5, 6, 12, 15, 16, 28, 33, 43, 46, 47, 48, 50, 257}
    witness 0

  datatype Rrsig = Rrsig(typeCovered: u16, algorithm: byte, labels: byte, origTtl: u32, expiration: u32,
                         inception: u32, keyTag: u16, signerName: Str, signature: Str)

  /** Record data with base64, base32 and hex text already decoded; `None`
      stands for a nil address and for text that is not valid hex or base32. */
  datatype Data =
    | A(ip: Option<Str>)
    | AAAA(ip6: Option<Str>)
    | NS(host: Str)
    | SOA(mname: Str, rname: Str, serial: u32, refresh: u32, retry: u32, expire: u32, minttl: u32)
    | TXT(strings: seq<Str>)
    | CNAME(target: Str)
    | PTR(ptr: Str)
    | MX(preference: u16, exchange: Str)
    | SRV(priority: u16, weight: u16, port: u16, service: Str)
    | CAA(flag: byte, tag: Str, value: Str)
    | DNSKEY(flags: u16, protocol: byte, algorithm: byte, key: Str)
    | DS(keyTag: u16, dsAlgorithm: byte, digestType: byte, digest: Option<Str>)
    | NSEC(nextName: Str, types: seq<u16>)
    | NSEC3(hash: byte, hashFlags: byte, iterations: u16, salt: Option<Str>, nextHash: Option<Str>,
            hashedTypes: seq<u16>)
    | RRSIG(sig: Rrsig)
    | Other(code: OtherType)

  function TypeOf(d: Data): u16 {
    match d
    case A(_) => TYPE_A
    case AAAA(_) => TYPE_AAAA
    case NS(_) => TYPE_NS
    case SOA(_, _, _, _, _, _, _) => TYPE_SOA
    case TXT(_) => TYPE_TXT
    case CNAME(_) => TYPE_CNAME
    case PTR(_) => TYPE_PTR
    case MX(_, _) => TYPE_MX
    case SRV(_, _, _, _) => TYPE_SRV
    case CAA(_, _, _) => TYPE_CAA
    case DNSKEY(_, _, _, _) => TYPE_DNSKEY
    case DS(_, _, _, _) => TYPE_DS
    case NSEC(_, _) => TYPE_NSEC
    case NSEC3(_, _, _, _, _, _) => TYPE_NSEC3
    case RRSIG(_) => TYPE_RRSIG
    case Other(c) => c
  }

  /** The numbers of RFC 1035, 3596, 2782, 8659, 4034 and 5155, and the kind of data
      each stands for. */
  lemma TypeNumbers(d: Data)
    ensures (d.A? <==> TypeOf(d) == 1) && (d.NS? <==> TypeOf(d) == 2) && (d.CNAME? <==> TypeOf(d) == 5)
    ensures (d.SOA? <==> TypeOf(d) == 6) && (d.PTR? <==> TypeOf(d) == 12) && (d.MX? <==> TypeOf(d) == 15)
    ensures (d.TXT? <==> TypeOf(d) == 16) && (d.AAAA? <==> TypeOf(d) == 28) && (d.SRV? <==> TypeOf(d) == 33)
    ensures (d.DS? <==> TypeOf(d) == 43) && (d.RRSIG? <==> TypeOf(d) == 46) && (d.NSEC? <==> TypeOf(d) == 47)
    ensures (d.DNSKEY? <==> TypeOf(d) == 48) && (d.NSEC3? <==> TypeOf(d) == 50) && (d.CAA? <==> TypeOf(d) == 257)
  {
  }

  /** A record: owner name, data, and the presentation form `rr.String()`. */
  datatype RR = RR(name: Str, data: Data, text: Str)

  // ----- encoders -----

  /** `net.IP.To4`: 4 octets, or the tail of an IPv4-mapped address. */
  function To4(ip: Str): Str {
    if |ip| == 16 && ip[..12] == [0, 0, 0, 0, 0, 0, 0, 0, 0, 0, 0xff, 0xff] then ip[12..] else ip
  }

  /** A string cut where its length field ends. */
  function Truncate(s: Str, n: nat): (r: Str)
    ensures |r| <= n && r <= s
    ensures |s| <= n ==> r == s
    ensures |s| > n ==> |r| == n
  {
    if |s| > n then s[..n] else s
  }

  function TxtRdata(strings: seq<Str>): Str {
    if strings == [] then []
    else
      var s := Truncate(strings[0], 255);
      [|s|] + s + TxtRdata(strings[1..])
  }

  function Nsec3Rdata(hash: byte, flags: byte, iterations: u16, salt: Str, next: Str, bitmap: Str): Str {
    [hash, flags] + PutU16(iterations) + [ToByte(|salt|)] + salt + [ToByte(|next|)] + next + bitmap
  }

  /** `dsRdata`: a buffer of four octets takes the key tag, then algorithm and
      digest type are appended after the two octets that stay zero. */
  function DsRdata(keyTag: u16, algorithm: byte, digestType: byte, digest: Str): (b: Str)
    ensures |b| == 6 + |digest|
  {
    PutU16(keyTag) + [0, 0] + [algorithm, digestType] + digest
  }

  /** `RRData`; `None` is nil. */
  function RRData(d: Data): Option<Str> {
    match d
    case A(None) => None
    case A(Some(ip)) => Some(To4(ip))
    case AAAA(ip) => ip
    case NS(n) => Pack(n)
    case SOA(m, r, serial, refresh, retry, expire, minttl) =>
      Some(PackOrNothing(m) + PackOrNothing(r)
           + (PutU32(serial) + PutU32(refresh) + PutU32(retry) + PutU32(expire) + PutU32(minttl)))
    case TXT(ss) => if ss == [] then None else Some(TxtRdata(ss))
    case CNAME(n) => Pack(n)
    case PTR(n) => Pack(n)
    case MX(p, n) => Some(PutU16(p) + PackOrNothing(n))
    case SRV(p, w, port, n) => Some(PutU16(p) + PutU16(w) + PutU16(port) + PackOrNothing(n))
    case CAA(f, tag, v) => var t := Truncate(tag, 63); Some([f, |t|] + t + v)
    case DNSKEY(f, p, a, key) => Some(PutU16(f) + [p, a] + key)
    case DS(k, a, t, d) => Some(DsRdata(k, a, t, if d.Some? then d.value else []))
    case NSEC(n, ts) =>
      if Pack(n).None? && ts == [] then None else Some(PackOrNothing(n) + TypeBitmap.Bitmap(ts))
    case NSEC3(h, f, i, Some(salt), Some(next), ts) =>
      Some(Nsec3Rdata(h, f, i, salt, next, TypeBitmap.Bitmap(ts)))
    case NSEC3(_, _, _, _, _, _) => None
    case RRSIG(_) => None
    case Other(_) => None
  }

  // ----- what the encoding keeps -----

  function CanonTypes(ts: seq<u16>): seq<u16> {
    SortOnce(TypeBitmap.CompareType, ts)
  }

  /** The canonical form of record data: lower-case names, strings cut at their
      length field, IPv4 addresses in four octets, each type once. */
  function Canonical(d: Data): Data {
    match d
    case A(Some(ip)) => A(Some(To4(ip)))
    case NS(n) => NS(Canon(n))
    case SOA(m, r, a, b, c, e, f) => SOA(Canon(m), Canon(r), a, b, c, e, f)
    case TXT(ss) => TXT(seq(|ss|, i requires 0 <= i < |ss| => Truncate(ss[i], 255)))
    case CNAME(n) => CNAME(Canon(n))
    case PTR(n) => PTR(Canon(n))
    case MX(p, n) => MX(p, Canon(n))
    case SRV(p, w, port, n) => SRV(p, w, port, Canon(n))
    case CAA(f, tag, v) => CAA(f, Truncate(tag, 63), v)
    case NSEC(n, ts) => NSEC(Canon(n), CanonTypes(ts))
    case NSEC3(h, f, i, s, n, ts) => NSEC3(h, f, i, s, n, CanonTypes(ts))
    case _ => d
  }

  /** Data with a complete wire form: every name packs, every optional part is
      there, and NSEC3 salt and hash fit their length octets. */
  predicate Encodable(d: Data) {
    match d
    case A(ip) => ip.Some?
    case AAAA(ip) => ip.Some?
    case NS(n) => Packable(n)
    case SOA(m, r, _, _, _, _, _) => Packable(m) && Packable(r)
    case TXT(ss) => ss != []
    case CNAME(n) => Packable(n)
    case PTR(n) => Packable(n)
    case MX(_, n) => Packable(n)
    case SRV(_, _, _, n) => Packable(n)
    case CAA(_, _, _) => true
    case DNSKEY(_, _, _, _) => true
    case DS(_, _, _, digest) => digest.Some?
    case NSEC(n, _) => Packable(n)
    case NSEC3(_, _, _, s, n, _) => s.Some? && n.Some? && |s.value| <= 255 && |n.value| <= 255
    case RRSIG(_) => false
    case Other(_) => false
  }

  // ----- decoders -----

  /** A name that fills `b` exactly. */
  function DecodeName(b: Str): Option<Str> {
    match ParseName(b)
    case None => None
    case Some((ls, rest)) => if rest == [] then Some(Dotted(ls)) else None
  }

  function DecodeTxt(b: Str): Option<seq<Str>> {
    if b == [] then Some([])
    else if |b| < 1 + At(b, 0) then None
    else
      match DecodeTxt(b[1 + At(b, 0)..])
      case None => None
      case Some(rest) => Some([b[1..1 + At(b, 0)]] + rest)
  }

  function DecodeSoa(b: Str): Option<Data> {
    match ParseName(b)
    case None => None
    case Some((m, b1)) =>
      match ParseName(b1)
      case None => None
      case Some((r, t)) =>
        if |t| != 20 then None
        else
          Some(SOA(Dotted(m), Dotted(r), GetU32(t), GetU32(t[4..]), GetU32(t[8..]), GetU32(t[12..]), GetU32(t[16..])))
  }

  function DecodeNsec3(b: Str): Option<Data> {
    if |b| < 5 || |b| < 6 + At(b, 4) || |b| < 6 + At(b, 4) + At(b, 5 + At(b, 4)) then None
    else
      var s := 5 + At(b, 4);
      var n := s + 1 + At(b, s);
      match TypeBitmap.Decode(b[n..], -1)
      case None => None
      case Some(ts) => Some(NSEC3(b[0], b[1], GetU16(b[2..]), Some(b[5..s]), Some(b[s + 1..n]), ts))
  }

  function DecodeNsec(b: Str): Option<Data> {
    match ParseName(b)
    case None => None
    case Some((ls, rest)) =>
      match TypeBitmap.Decode(rest, -1)
      case None => None
      case Some(ts) => Some(NSEC(Dotted(ls), ts))
  }

  function NameData(t: u16, n: Str): Data {
    if t == TYPE_NS then NS(n) else if t == TYPE_CNAME then CNAME(n) else PTR(n)
  }

  function DecodeNameData(t: u16, b: Str): Option<Data> {
    match DecodeName(b)
    case None => None
    case Some(n) => Some(NameData(t, n))
  }

  function DecodeMx(b: Str): Option<Data> {
    if |b| < 2 then None
    else
      match DecodeName(b[2..])
      case None => None
      case Some(n) => Some(MX(GetU16(b), n))
  }

  function DecodeSrv(b: Str): Option<Data> {
    if |b| < 6 then None
    else
      match DecodeName(b[6..])
      case None => None
      case Some(n) => Some(SRV(GetU16(b), GetU16(b[2..]), GetU16(b[4..]), n))
  }

  function DecodeTxtData(b: Str): Option<Data> {
    match DecodeTxt(b)
    case None => None
    case Some(ss) => Some(TXT(ss))
  }

  /** Reads RDATA of a given type back into fields. */
  function DecodeData(t: u16, b: Str): Option<Data> {
    if t == TYPE_A then Some(A(Some(b)))
    else if t == TYPE_AAAA then Some(AAAA(Some(b)))
    else if t == TYPE_NS || t == TYPE_CNAME || t == TYPE_PTR then DecodeNameData(t, b)
    else if t == TYPE_SOA then DecodeSoa(b)
    else if t == TYPE_TXT then DecodeTxtData(b)
    else if t == TYPE_MX then DecodeMx(b)
    else if t == TYPE_SRV then DecodeSrv(b)
    else if t == TYPE_CAA then
      if |b| < 2 || |b| < 2 + At(b, 1) then None else Some(CAA(b[0], b[2..2 + At(b, 1)], b[2 + At(b, 1)..]))
    else if t == TYPE_DNSKEY then
      if |b| < 4 then None else Some(DNSKEY(GetU16(b), b[2], b[3], b[4..]))
    else if t == TYPE_DS then
      if |b| < 4 then None else Some(DS(GetU16(b), b[2], b[3], Some(b[4..])))
    else if t == TYPE_NSEC then DecodeNsec(b)
    else if t == TYPE_NSEC3 then DecodeNsec3(b)
    else None
  }

  // ----- round trips -----

  ghost predicate RoundTrips(d: Data) {
    RRData(d).Some? && DecodeData(TypeOf(d), RRData(d).value) == Some(Canonical(d))
  }

  lemma NameRoundTrip(n: Str)
    requires Packable(n)
    ensures DecodeName(Pack(n).value) == Some(Canon(n))
  {
    PackRoundTrip(n, []);
    assert PackOrNothing(n) + [] == PackOrNothing(n);
  }

  lemma FiveFields(s: u32, f: u32, y: u32, e: u32, m: u32)
    ensures var t := PutU32(s) + PutU32(f) + PutU32(y) + PutU32(e) + PutU32(m);
            |t| == 20 && GetU32(t) == s && GetU32(t[4..]) == f && GetU32(t[8..]) == y && GetU32(t[12..]) == e
            && GetU32(t[16..]) == m
  {
    var t := PutU32(s) + PutU32(f) + PutU32(y) + PutU32(e) + PutU32(m);
    BigEndianRoundTrip(0, s, []);
    BigEndianRoundTrip(0, f, []);
    BigEndianRoundTrip(0, y, []);
    BigEndianRoundTrip(0, e, []);
    BigEndianRoundTrip(0, m, []);
    assert t[..4] == PutU32(s) + [] && t[4..8] == PutU32(f) + [] && t[8..12] == PutU32(y) + [];
    assert t[12..16] == PutU32(e) + [] && t[16..20] == PutU32(m) + [];
  }

  lemma SoaRoundTrip(d: Data)
    requires d.SOA? && Encodable(d)
    ensures RoundTrips(d)
  {
    var t := PutU32(d.serial) + PutU32(d.refresh) + PutU32(d.retry) + PutU32(d.expire) + PutU32(d.minttl);
    FiveFields(d.serial, d.refresh, d.retry, d.expire, d.minttl);
    TwoNames(d.mname, d.rname, t);
    Dispatch(PackOrNothing(d.mname) + PackOrNothing(d.rname) + t);
  }

  lemma TwoNames(m: Str, r: Str, t: Str)
    requires Packable(m) && Packable(r)
    ensures ParseName(PackOrNothing(m) + PackOrNothing(r) + t)
            == Some((LabelsOf(Canon(m)), PackOrNothing(r) + t))
    ensures ParseName(PackOrNothing(r) + t) == Some((LabelsOf(Canon(r)), t))
    ensures Dotted(LabelsOf(Canon(m))) == Canon(m) && Dotted(LabelsOf(Canon(r))) == Canon(r)
  {
    Regroup(PackOrNothing(m), PackOrNothing(r), t);
    PackRoundTrip(m, PackOrNothing(r) + t);
    PackRoundTrip(r, t);
  }

  lemma DecodeFirstString(b: Str, s: Str, rest: Str)
    requires b != [] && At(b, 0) == |s| && b[1..] == s + rest
    ensures DecodeTxt(b) == match DecodeTxt(rest) { case None => None case Some(r) => Some([s] + r) }
  {
    assert b[1..1 + |s|] == s && b[1 + |s|..] == rest;
  }

  /** `ss'` holds the strings of `ss`, in order, each up to its octet 255. */
  ghost predicate FirstOctets(ss: seq<Str>, ss': seq<Str>) {
    && |ss'| == |ss|
    && (forall i :: 0 <= i < |ss| && |ss[i]| <= 255 ==> ss'[i] == ss[i])
    && (forall i :: 0 <= i < |ss| && |ss[i]| > 255 ==> ss'[i] == ss[i][..255])
  }

  /** Every list of strings reads back, each up to its octet 255; so a list reads
      back as itself if and only if none of its strings is longer. */
  lemma TxtRoundTrip(ss: seq<Str>)
    ensures DecodeTxt(TxtRdata(ss)).Some? && FirstOctets(ss, DecodeTxt(TxtRdata(ss)).value)
    ensures DecodeTxt(TxtRdata(ss)) == Some(ss) <==> forall i :: 0 <= i < |ss| ==> |ss[i]| <= 255
  {
    TxtReadsBack(ss);
    CutToFirstOctets(ss, Canonical(TXT(ss)).strings);
  }

  lemma CutToFirstOctets(ss: seq<Str>, ss': seq<Str>)
    requires |ss'| == |ss| && forall i :: 0 <= i < |ss| ==> ss'[i] == Truncate(ss[i], 255)
    ensures FirstOctets(ss, ss')
    ensures ss' == ss <==> forall i :: 0 <= i < |ss| ==> |ss[i]| <= 255
  {
    forall i | 0 <= i < |ss| && |ss[i]| > 255 ensures ss'[i] == ss[i][..255] && ss'[i] != ss[i] {
      TruncatedIsPrefix(ss[i], 255);
    }
  }

  lemma TruncatedIsPrefix(s: Str, n: nat)
    ensures Truncate(s, n) == if |s| <= n then s else s[..n]
  {
  }

  lemma {:induction false} TxtReadsBack(ss: seq<Str>)
    ensures DecodeTxt(TxtRdata(ss)) == Some(Canonical(TXT(ss)).strings)
  {
    if ss == [] {
      assert Canonical(TXT(ss)).strings == [];
    } else {
      var s := Truncate(ss[0], 255);
      var rest := TxtRdata(ss[1..]);
      var b := [|s|] + s + rest;
      TxtReadsBack(ss[1..]);
      assert b[1..] == s + rest;
      DecodeFirstString(b, s, rest);
      assert Canonical(TXT(ss)).strings == [s] + Canonical(TXT(ss[1..])).strings;
    }
  }

  lemma MxRoundTrip(d: Data)
    requires d.MX? && Encodable(d)
    ensures RoundTrips(d)
  {
    var b := RRData(d).value;
    BigEndianRoundTrip(d.preference, 0, PackOrNothing(d.exchange));
    assert b[2..] == Pack(d.exchange).value;
    NameRoundTrip(d.exchange);
  }

  lemma ThreeFields(p: u16, w: u16, o: u16, rest: Str)
    ensures var b := PutU16(p) + PutU16(w) + PutU16(o) + rest;
            GetU16(b) == p && GetU16(b[2..]) == w && GetU16(b[4..]) == o && b[6..] == rest
  {
    var b := PutU16(p) + PutU16(w) + PutU16(o) + rest;
    BigEndianRoundTrip(p, 0, []);
    BigEndianRoundTrip(w, 0, []);
    BigEndianRoundTrip(o, 0, []);
    assert b[..2] == PutU16(p) + [] && b[2..4] == PutU16(w) + [] && b[4..6] == PutU16(o) + [];
  }

  lemma SrvRoundTrip(d: Data)
    requires d.SRV? && Encodable(d)
    ensures RoundTrips(d)
  {
    ThreeFields(d.priority, d.weight, d.port, PackOrNothing(d.service));
    NameRoundTrip(d.service);
  }

  lemma CaaRoundTrip(d: Data)
    requires d.CAA?
    ensures RoundTrips(d)
  {
    var t := Truncate(d.tag, 63);
    var b := [d.flag, |t|] + t + d.value;
    assert RRData(d).value == b && b[2..2 + |t|] == t && b[2 + |t|..] == d.value;
  }

  /** A CAA record reads back with the first 63 octets of its tag: as itself if
      and only if it has no more. */
  lemma CaaReadsBackIff(d: Data)
    requires d.CAA?
    ensures RRData(d).Some?
    ensures DecodeData(TYPE_CAA, RRData(d).value) == Some(d) <==> |d.tag| <= 63
    ensures |d.tag| > 63 ==> DecodeData(TYPE_CAA, RRData(d).value) == Some(CAA(d.flag, d.tag[..63], d.value))
  {
    CaaRoundTrip(d);
    TruncatedIsPrefix(d.tag, 63);
  }

  const MAPPED_PREFIX: Str := [0, 0, 0, 0, 0, 0, 0, 0, 0, 0, 0xff, 0xff]

  /** An address record carries its address octet by octet, except that an
      IPv4-mapped address in an A record goes as its last four octets. */
  lemma AddressOctets(ip: Str, v4: Str)
    requires |v4| == 4
    ensures RRData(A(Some(v4))) == Some(v4) == RRData(A(Some(MAPPED_PREFIX + v4)))
    ensures (forall x :: |x| == 4 ==> ip != MAPPED_PREFIX + x) ==> RRData(A(Some(ip))) == Some(ip)
    ensures RRData(AAAA(Some(ip))) == Some(ip)
  {
    assert (MAPPED_PREFIX + v4)[..12] == MAPPED_PREFIX && (MAPPED_PREFIX + v4)[12..] == v4;
    if |ip| == 16 && ip[..12] == MAPPED_PREFIX {
      assert ip == MAPPED_PREFIX + ip[12..];
    }
  }

  lemma KeyRoundTrip(d: Data)
    requires d.DNSKEY?
    ensures RoundTrips(d)
  {
    var b := RRData(d).value;
    BigEndianRoundTrip(d.flags, 0, [d.protocol, d.algorithm] + d.key);
    assert b == PutU16(d.flags) + ([d.protocol, d.algorithm] + d.key) && b[4..] == d.key;
  }

  /** How DS RDATA as ZoneLint writes it reads under section 5.1 of RFC 4034:
      algorithm and digest type are zero and have moved into the digest. */
  function Misread(d: Data): Data
    requires d.DS? && d.digest.Some?
  {
    DS(d.keyTag, 0, 0, Some([d.dsAlgorithm, d.digestType] + d.digest.value))
  }

  lemma DsIsMisread(d: Data)
    requires d.DS? && Encodable(d)
    ensures RRData(d).Some? && DecodeData(TYPE_DS, RRData(d).value) == Some(Misread(d))
    ensures !RoundTrips(d)
  {
    var b := RRData(d).value;
    var tail := [d.dsAlgorithm, d.digestType] + d.digest.value;
    BigEndianRoundTrip(d.keyTag, 0, [0, 0] + tail);
    assert b == PutU16(d.keyTag) + ([0, 0] + tail) && b[4..] == tail;
    assert |tail| == |d.digest.value| + 2;
  }

  lemma NsecFields(n: Str, ts: seq<u16>)
    requires Packable(n)
    ensures DecodeNsec(PackOrNothing(n) + TypeBitmap.Bitmap(ts)) == Some(NSEC(Canon(n), CanonTypes(ts)))
  {
    PackRoundTrip(n, TypeBitmap.Bitmap(ts));
    TypeBitmap.BitmapRoundTrip(ts);
  }

  lemma Dispatch(b: Str)
    ensures DecodeData(TYPE_NSEC, b) == DecodeNsec(b) && DecodeData(TYPE_NSEC3, b) == DecodeNsec3(b)
    ensures DecodeData(TYPE_SOA, b) == DecodeSoa(b) && DecodeData(TYPE_TXT, b) == DecodeTxtData(b)
  {
  }

  lemma NsecForm(n: Str, ts: seq<u16>)
    requires Packable(n)
    ensures RRData(NSEC(n, ts)) == Some(PackOrNothing(n) + TypeBitmap.Bitmap(ts))
    ensures Canonical(NSEC(n, ts)) == NSEC(Canon(n), CanonTypes(ts))
  {
  }

  lemma NsecRoundTrip(d: Data)
    requires d.NSEC? && Encodable(d)
    ensures RoundTrips(d)
  {
    NsecForm(d.nextName, d.types);
    NsecFields(d.nextName, d.types);
    Dispatch(PackOrNothing(d.nextName) + TypeBitmap.Bitmap(d.types));
  }

  lemma Nsec3Layout(h: byte, f: byte, i: u16, salt: Str, next: Str, bitmap: Str)
    requires |salt| <= 255 && |next| <= 255
    ensures var b := Nsec3Rdata(h, f, i, salt, next, bitmap);
            var s := 5 + |salt|;
            |b| == s + 1 + |next| + |bitmap| && b[0] == h && b[1] == f && GetU16(b[2..]) == i && b[4] == |salt|
            && b[5..s] == salt && b[s] == |next| && b[s + 1..s + 1 + |next|] == next && b[s + 1 + |next|..] == bitmap
  {
    var b := Nsec3Rdata(h, f, i, salt, next, bitmap);
    var tail := [ToByte(|salt|)] + salt + [ToByte(|next|)] + next + bitmap;
    assert b == [h, f] + PutU16(i) + tail;
    assert b[2..] == PutU16(i) + tail;
    BigEndianRoundTrip(i, 0, tail);
  }

  lemma Nsec3RoundTrip(d: Data)
    requires d.NSEC3? && Encodable(d)
    ensures RoundTrips(d)
  {
    Nsec3Layout(d.hash, d.hashFlags, d.iterations, d.salt.value, d.nextHash.value, TypeBitmap.Bitmap(d.hashedTypes));
    TypeBitmap.BitmapRoundTrip(d.hashedTypes);
  }

  lemma OneNameRoundTrip(d: Data)
    requires (d.NS? || d.CNAME? || d.PTR?) && Encodable(d)
    ensures RoundTrips(d)
  {
    match d
    case NS(n) => NameRoundTrip(n);
    case CNAME(n) => NameRoundTrip(n);
    case PTR(n) => NameRoundTrip(n);
  }

  lemma AddressRoundTrip(d: Data)
    requires (d.A? || d.AAAA?) && Encodable(d)
    ensures RoundTrips(d)
  {
  }

  lemma TextRoundTrip(d: Data)
    requires d.TXT? && Encodable(d)
    ensures RoundTrips(d)
  {
    TxtReadsBack(d.strings);
  }

  /** Decoding canonical RDATA gives the canonical fields back, for every type
      the code encodes except DS, which never reads back. */
  lemma RDataRoundTrip(d: Data)
    requires Encodable(d)
    ensures RRData(d).Some?
    ensures RoundTrips(d) <==> !d.DS?
    ensures d.DS? ==> DecodeData(TYPE_DS, RRData(d).value) == Some(Misread(d))
  {
    if d.A? || d.AAAA? {
      AddressRoundTrip(d);
    } else if d.NS? || d.CNAME? || d.PTR? {
      OneNameRoundTrip(d);
    } else if d.SOA? {
      SoaRoundTrip(d);
    } else if d.TXT? {
      TextRoundTrip(d);
    } else if d.MX? {
      MxRoundTrip(d);
    } else if d.SRV? {
      SrvRoundTrip(d);
    } else if d.CAA? {
      CaaRoundTrip(d);
    } else if d.DNSKEY? {
      KeyRoundTrip(d);
    } else if d.DS? {
      DsIsMisread(d);
    } else if d.NSEC? {
      NsecRoundTrip(d);
    } else {
      Nsec3RoundTrip(d);
    }
  }

  /** NSEC3 salt and hash lengths are cut to one octet: the record reads back
      exactly when both are below 256. */
  lemma Nsec3RoundTripIff(d: Data)
    requires d.NSEC3? && d.salt.Some? && d.nextHash.Some?
    ensures DecodeNsec3(RRData(d).value) == Some(Canonical(d))
            <==> |d.salt.value| <= 255 && |d.nextHash.value| <= 255
  {
    if |d.salt.value| <= 255 && |d.nextHash.value| <= 255 {
      Nsec3RoundTrip(d);
    }
  }

  /** The length octets of salt and hash are the lengths modulo 256. */
  lemma Nsec3LengthOctets(h: byte, f: byte, i: u16, salt: Str, next: Str, bitmap: Str)
    ensures var b := Nsec3Rdata(h, f, i, salt, next, bitmap);
            |b| == 6 + |salt| + |next| + |bitmap| && b[4] == |salt| % 0x100 && b[5 + |salt|] == |next| % 0x100
  {
  }

  /** What is written of data without a complete wire form: nothing at all, or the
      fixed fields without the name that does not pack. */
  lemma WithoutWireForm(d: Data)
    requires !Encodable(d)
    ensures d.A? || d.AAAA? || d.NS? || d.CNAME? || d.PTR? || d.TXT? || d.RRSIG? || d.Other? ==> RRData(d).None?
    ensures d.MX? ==> RRData(d) == Some(PutU16(d.preference))
    ensures d.SRV? ==> RRData(d) == Some(PutU16(d.priority) + PutU16(d.weight) + PutU16(d.port))
    ensures d.DS? ==> RRData(d) == RRData(d.(digest := Some([])))
    ensures d.NSEC? ==> RRData(d) == if d.types == [] then None else Some(TypeBitmap.Bitmap(d.types))
    ensures d.NSEC3? && (d.salt.None? || d.nextHash.None?) ==> RRData(d).None?
    ensures d.SOA? ==> RRData(d).Some? && 20 <= |RRData(d).value| <= 275
  {
    if d.SOA? {
      PackedLength(d.mname);
      PackedLength(d.rname);
    } else if d.MX? {
      assert PutU16(d.preference) + [] == PutU16(d.preference);
    } else if d.SRV? {
      var b := PutU16(d.priority) + PutU16(d.weight) + PutU16(d.port);
      assert b + [] == b;
    } else if d.NSEC? {
      assert [] + TypeBitmap.Bitmap(d.types) == TypeBitmap.Bitmap(d.types);
    }
  }

  lemma PackedLength(n: Str)
    ensures |PackOrNothing(n)| <= 255
    ensures Packable(n) <==> PackOrNothing(n) != []
  {
    if Packable(n) {
      WireHasLength(LabelsOf(Canon(n)));
    }
  }

  lemma PackOfCanon(n: Str)
    ensures Pack(Canon(n)) == Pack(n)
  {
    CanonIsStable(n);
  }

  lemma {:induction false} TxtOfTruncated(ss: seq<Str>)
    ensures TxtRdata(Canonical(TXT(ss)).strings) == TxtRdata(ss)
  {
    if ss != [] {
      TxtOfTruncated(ss[1..]);
      assert Canonical(TXT(ss)).strings[1..] == Canonical(TXT(ss[1..])).strings;
    }
  }

  lemma EncodingOfCanonicalName(n: Str)
    ensures RRData(NS(Canon(n))) == RRData(NS(n))
    ensures RRData(CNAME(Canon(n))) == RRData(CNAME(n))
    ensures RRData(PTR(Canon(n))) == RRData(PTR(n))
  {
    PackOfCanon(n);
  }

  lemma EncodingOfCanonicalMx(p: u16, n: Str)
    ensures RRData(MX(p, Canon(n))) == RRData(MX(p, n))
  {
    PackOfCanon(n);
  }

  lemma EncodingOfCanonicalSrv(p: u16, w: u16, port: u16, n: Str)
    ensures RRData(SRV(p, w, port, Canon(n))) == RRData(SRV(p, w, port, n))
  {
    PackOfCanon(n);
  }

  lemma EncodingOfCanonicalSoa(d: Data)
    requires d.SOA?
    ensures RRData(Canonical(d)) == RRData(d)
  {
    PackOfCanon(d.mname);
    PackOfCanon(d.rname);
  }

  lemma EncodingOfCanonicalNsec(n: Str, ts: seq<u16>)
    ensures RRData(NSEC(Canon(n), CanonTypes(ts))) == RRData(NSEC(n, ts))
  {
    PackOfCanon(n);
    BitmapOfCanonTypes(ts);
    SameNsec(Canon(n), CanonTypes(ts), n, ts);
  }

  lemma SameNsec(n: Str, ts: seq<u16>, n': Str, ts': seq<u16>)
    requires Pack(n) == Pack(n') && TypeBitmap.Bitmap(ts) == TypeBitmap.Bitmap(ts') && (ts == [] <==> ts' == [])
    ensures RRData(NSEC(n, ts)) == RRData(NSEC(n', ts'))
  {
  }

  lemma EncodingOfCanonicalNsec3(h: byte, f: byte, i: u16, salt: Option<Str>, next: Option<Str>, ts: seq<u16>)
    ensures RRData(NSEC3(h, f, i, salt, next, CanonTypes(ts))) == RRData(NSEC3(h, f, i, salt, next, ts))
  {
    BitmapOfCanonTypes(ts);
  }

  /** The encoder only sees the canonical form. */
  lemma EncodingOfCanonical(d: Data)
    ensures RRData(Canonical(d)) == RRData(d)
  {
    if d.NS? {
      EncodingOfCanonicalName(d.host);
    } else if d.CNAME? {
      EncodingOfCanonicalName(d.target);
    } else if d.PTR? {
      EncodingOfCanonicalName(d.ptr);
    } else if d.MX? {
      EncodingOfCanonicalMx(d.preference, d.exchange);
    } else if d.SRV? {
      EncodingOfCanonicalSrv(d.priority, d.weight, d.port, d.service);
    } else if d.SOA? {
      EncodingOfCanonicalSoa(d);
    } else if d.NSEC? {
      EncodingOfCanonicalNsec(d.nextName, d.types);
    } else if d.NSEC3? {
      EncodingOfCanonicalNsec3(d.hash, d.hashFlags, d.iterations, d.salt, d.nextHash, d.hashedTypes);
    } else if d.TXT? {
      TxtOfTruncated(d.strings);
    }
  }

  lemma BitmapOfCanonTypes(ts: seq<u16>)
    ensures TypeBitmap.Bitmap(CanonTypes(ts)) == TypeBitmap.Bitmap(ts)
    ensures CanonTypes(ts) == [] <==> ts == []
  {
    TypeBitmap.BitmapRoundTrip(ts);
    TypeBitmap.BitmapIsCanonical(CanonTypes(ts), ts);
    HasElement(ts);
    HasElement(CanonTypes(ts));
  }

  /** The shifted DS fields still determine the record. */
  lemma MisreadIsInjective(a: Data, b: Data)
    requires a.DS? && b.DS? && Encodable(a) && Encodable(b) && Misread(a) == Misread(b)
    ensures a == b
  {
    var x, y := [a.dsAlgorithm, a.digestType] + a.digest.value, [b.dsAlgorithm, b.digestType] + b.digest.value;
    assert x == y;
    assert x[0] == a.dsAlgorithm && x[1] == a.digestType && x[2..] == a.digest.value;
    assert y[0] == b.dsAlgorithm && y[1] == b.digestType && y[2..] == b.digest.value;
  }

  /** Within a type, equal RDATA means equal canonical fields, and conversely. */
  lemma RDataIdentifiesRecord(a: Data, b: Data)
    requires Encodable(a) && Encodable(b) && TypeOf(a) == TypeOf(b)
    ensures RRData(a) == RRData(b) <==> Canonical(a) == Canonical(b)
  {
    RDataRoundTrip(a);
    RDataRoundTrip(b);
    EncodingOfCanonical(a);
    EncodingOfCanonical(b);
    SameTypeSameKind(a, b);
    if a.DS? && RRData(a) == RRData(b) {
      MisreadIsInjective(a, b);
    }
  }

  lemma SameTypeSameKind(a: Data, b: Data)
    requires TypeOf(a) == TypeOf(b)
    ensures a.DS? <==> b.DS?
  {
  }

  // ----- the code's loops -----

  lemma TxtNext(out: Str, strings: seq<Str>, i: nat)
    requires i < |strings|
    ensures var s := Truncate(strings[i], 255);
            out + TxtRdata(strings[i..]) == out + ([|s|] + s) + TxtRdata(strings[i + 1..])
  {
    var s := Truncate(strings[i], 255);
    assert strings[i..][1..] == strings[i + 1..] && strings[i..][0] == strings[i];
    Regroup(out, [|s|] + s, TxtRdata(strings[i + 1..]));
  }

  method BuildTxt(strings: seq<Str>) returns (out: Str)
    ensures out == TxtRdata(strings)
  {
    out := [];
    assert strings[0..] == strings;
    for i := 0 to |strings|
      invariant out + TxtRdata(strings[i..]) == TxtRdata(strings)
    {
      var s := Truncate(strings[i], 255);
      TxtNext(out, strings, i);
      out := out + ([|s|] + s);
    }
    assert strings[|strings|..] == [];
  }

  method BuildTxtData(ss: seq<Str>) returns (out: Option<Str>)
    ensures out == RRData(TXT(ss))
  {
    if ss == [] {
      return None;
    }
    var b := BuildTxt(ss);
    return Some(b);
  }

  method BuildNsec(n: Str, ts: seq<u16>) returns (out: Option<Str>)
    ensures out == RRData(NSEC(n, ts))
  {
    var bitmap := TypeBitmap.TypeBitmap(ts);
    out := if Pack(n).None? && ts == [] then None else Some(PackOrNothing(n) + bitmap);
  }

  method BuildNsec3(h: byte, f: byte, i: u16, salt: Str, next: Str, ts: seq<u16>) returns (out: Option<Str>)
    ensures out == RRData(NSEC3(h, f, i, Some(salt), Some(next), ts))
  {
    var bitmap := TypeBitmap.TypeBitmap(ts);
    out := Some(Nsec3Rdata(h, f, i, salt, next, bitmap));
  }

  /** `RRData` with the loops of the code for TXT strings and type bitmaps. */
  method BuildRData(d: Data) returns (out: Option<Str>)
    ensures out == RRData(d)
  {
    match d {
      case TXT(ss) => out := BuildTxtData(ss);
      case NSEC(n, ts) => out := BuildNsec(n, ts);
      case NSEC3(h, f, i, Some(salt), Some(next), ts) => out := BuildNsec3(h, f, i, salt, next, ts);
      case _ => out := RRData(d);
    }
  }
}
