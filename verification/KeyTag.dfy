/** The DNSKEY key tag (Appendix B of RFC 4034) with the 32-bit accumulator of
    the code, against the checksum it computes. */
module KeyTag {
  import opened Ordering
  import opened Bytes

  const MAX32: nat := 0x1_0000_0000

  /** Wire form of a DNSKEY: flags, protocol, algorithm, public key. */
  function KeyRData(flags: u16, protocol: byte, algorithm: byte, key: Str): Str {
    PutU16(flags) + [protocol, algorithm] + key
  }

  /** What octet `i` adds to the sum: even octets are the high halves of words. */
  function Term(b: byte, i: nat): nat {
    var v: int := b;
    if i % 2 == 0 then v * 0x100 else v
  }

  /** The sum S of Appendix B, without any bound. */
  function Sum(b: Str): nat {
    if b == [] then 0 else Sum(b[..|b| - 1]) + Term(b[|b| - 1], |b| - 1)
  }

  /** Adding the carries and keeping 16 bits. */
  function Fold(s: nat): u16 {
    (s + s / 0x1_0000 % 0x1_0000) % 0x1_0000
  }

  /** The key tag of the code, for keys of any length. */
  function Tag(rdata: Str): u16 {
    Fold(Sum(rdata) % MAX32)
  }

  /** The loop of `KeyTag`: `ac` wraps around like a `uint32`. */
  method Accumulate(rdata: Str) returns (ac: u32)
    ensures ac == Sum(rdata) % MAX32
  {
    ac := 0;
    for i := 0 to |rdata|
      invariant ac == Sum(rdata[..i]) % MAX32
    {
      assert rdata[..i + 1][..i] == rdata[..i];
      WrapAround(Sum(rdata[..i]), Term(rdata[i], i));
      ac := (ac + Term(rdata[i], i)) % MAX32;
    }
    assert rdata[..|rdata|] == rdata;
  }

  /** `KeyTag`, for keys of any length; up to 65532 octets nothing wraps. */
  method ComputeKeyTag(flags: u16, protocol: byte, algorithm: byte, key: Str) returns (tag: u16)
    ensures tag == Tag(KeyRData(flags, protocol, algorithm, key))
    ensures |key| + 4 <= 0x1_0000 ==> tag == Fold(Sum(KeyRData(flags, protocol, algorithm, key)))
  {
    var rdata := KeyRData(flags, protocol, algorithm, key);
    var ac: nat := Accumulate(rdata);
    FoldWraps(ac);
    tag := (ac + ac / 0x1_0000 % 0x1_0000) % MAX32 % 0x1_0000;
    if |key| + 4 <= 0x1_0000 {
      SumIsBounded(rdata);
      NoWrap(Sum(rdata));
    }
  }

  lemma WrapAround(s: nat, t: nat)
    ensures (s % MAX32 + t) % MAX32 == (s + t) % MAX32
  {
    var q := s / MAX32;
    assert s == q * MAX32 + s % MAX32;
    assert (s + t) == q * MAX32 + (s % MAX32 + t);
  }

  /** The last addition cannot disturb the low 16 bits even if it wraps. */
  lemma FoldWraps(ac: nat)
    ensures (ac + ac / 0x1_0000 % 0x1_0000) % MAX32 % 0x1_0000 == Fold(ac)
  {
    var v := ac + ac / 0x1_0000 % 0x1_0000;
    assert v == v / MAX32 * 0x1_0000 * 0x1_0000 + v % MAX32;
    assert v % MAX32 == v % MAX32 / 0x1_0000 * 0x1_0000 + v % MAX32 % 0x1_0000;
    Residue(v, v / MAX32 * 0x1_0000 + v % MAX32 / 0x1_0000, v % MAX32 % 0x1_0000);
  }

  lemma Residue(v: nat, q: nat, r: nat)
    requires v == q * 0x1_0000 + r && r < 0x1_0000
    ensures v % 0x1_0000 == r && v / 0x1_0000 == q
  {
  }

  /** Octet pairs add at most 0xffff, so RDATA of a DNS message (at most 65535
      octets) stays below 2^31 and the accumulator never wraps. */
  lemma {:induction false} SumIsBounded(b: Str)
    ensures Sum(b) <= 0xffff * (|b| / 2) + (if |b| % 2 == 1 then 0xff00 else 0)
    ensures |b| <= 0xffff ==> Sum(b) < 0x8000_0000
    ensures |b| <= 0x1_0000 ==> Sum(b) < MAX32
  {
    if b != [] {
      SumIsBounded(b[..|b| - 1]);
    }
  }

  /** `tag` is S modulo 65535, or one less when adding the carries carries
      again: the second carry is dropped. */
  ghost predicate IsChecksum(tag: u16, s: nat) {
    var q, r := s / 0x1_0000, s % 0x1_0000;
    if q + r < 0x1_0000 then tag as int == q + r && tag % 0xffff == s % 0xffff
    else tag as int == q + r - 0x1_0000 && tag % 0xffff == (s - 1) % 0xffff
  }

  lemma FoldIsChecksum(s: nat)
    requires s < MAX32
    ensures IsChecksum(Fold(s), s)
  {
    var q, r := s / 0x1_0000, s % 0x1_0000;
    if q + r < 0x1_0000 {
      Residue(s + q, q, q + r);
      SameResidue(s, q, q + r);
    } else {
      Residue(s + q, q + 1, q + r - 0x1_0000);
      SameResidue(s - 1, q + 1, q + r - 0x1_0000);
    }
  }

  lemma NoWrap(s: nat)
    requires s < MAX32
    ensures s % MAX32 == s
  {
  }

  lemma TagIsChecksum(rdata: Str)
    requires Sum(rdata) < MAX32
    ensures IsChecksum(Tag(rdata), Sum(rdata))
  {
    var s := Sum(rdata);
    FoldIsChecksum(s);
    NoWrap(s);
  }

  lemma {:induction false} SameResidue(v: nat, q: nat, r: nat)
    requires v == q * 0xffff + r
    ensures v % 0xffff == r % 0xffff
  {
    if q > 0 {
      SameResidue(v - 0xffff, q - 1, r);
    }
  }

  // ----- 16-bit words -----

  function OctetsOf(ws: seq<u16>): Str {
    if ws == [] then [] else OctetsOf(ws[..|ws| - 1]) + PutU16(ws[|ws| - 1])
  }

  function SumOf(ws: seq<u16>): nat {
    if ws == [] then 0 else SumOf(ws[..|ws| - 1]) + ws[|ws| - 1]
  }

  lemma {:induction false} SumOfWords(ws: seq<u16>)
    ensures |OctetsOf(ws)| == 2 * |ws| && Sum(OctetsOf(ws)) == SumOf(ws)
  {
    if ws != [] {
      var p, w := ws[..|ws| - 1], ws[|ws| - 1];
      SumOfWords(p);
      var b := OctetsOf(ws);
      var o := PutU16(w);
      assert b[..|b| - 1][..|b| - 2] == OctetsOf(p);
      assert b[|b| - 1] == o[1] && b[..|b| - 1][|b| - 2] == o[0];
      assert Sum(b[..|b| - 1]) == Sum(OctetsOf(p)) + Term(o[0], |b| - 2);
    }
  }

  lemma {:induction false} SumOfWithout(ws: seq<u16>, i: nat)
    requires i < |ws|
    ensures SumOf(ws) == SumOf(ws[..i] + ws[i + 1..]) + ws[i]
  {
    var p := ws[..|ws| - 1];
    if i == |ws| - 1 {
      assert ws[..i] + ws[i + 1..] == p;
    } else {
      SumOfWithout(p, i);
      var r := ws[..i] + ws[i + 1..];
      assert r[..|r| - 1] == p[..i] + p[i + 1..] && r[|r| - 1] == ws[|ws| - 1];
    }
  }

  lemma {:induction false} SumOfPermutation(a: seq<u16>, b: seq<u16>)
    requires multiset(a) == multiset(b)
    ensures SumOf(a) == SumOf(b)
  {
    if a == [] {
      assert |multiset(b)| == 0;
    } else {
      var i := RemoveOne(a, b);
      SumOfPermutation(a[..|a| - 1], b[..i] + b[i + 1..]);
      SumOfWithout(b, i);
    }
  }

  lemma SumAppend(p: Str, b: byte)
    ensures Sum(p + [b]) == Sum(p) + Term(b, |p|)
  {
    assert (p + [b])[..|p|] == p;
  }

  /** Rearranging the aligned 16-bit words of a key, with or without an odd octet
      at the end, does not change its tag, so different keys of one zone may
      share a tag. */
  lemma TagIgnoresWordOrder(a: seq<u16>, b: seq<u16>, tail: Str)
    requires multiset(a) == multiset(b) && |tail| <= 1
    ensures Tag(OctetsOf(a) + tail) == Tag(OctetsOf(b) + tail)
  {
    SumOfPermutation(a, b);
    SumOfWords(a);
    SumOfWords(b);
    if tail == [] {
      assert OctetsOf(a) + tail == OctetsOf(a) && OctetsOf(b) + tail == OctetsOf(b);
    } else {
      assert tail == [tail[0]];
      SumAppend(OctetsOf(a), tail[0]);
      SumAppend(OctetsOf(b), tail[0]);
      assert |a| == |multiset(a)| == |multiset(b)| == |b|;
    }
  }
}
