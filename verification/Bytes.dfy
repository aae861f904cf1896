/** Octets, Go strings (which are octet sequences), big-endian fields and
    decimal numerals. */
module Bytes {
  import opened Ordering

  type byte = x: int | 0 <= x < 0x100
  type u16 = x: int | 0 <= x < 0x1_0000
  type u32 = x: int | 0 <= x < 0x1_0000_0000
  type Str = seq<byte>

  function CompareInt(x: int, y: int): int {
    if x < y then -1 else if x > y then 1 else 0
  }

  function CompareByte(x: byte, y: byte): int {
    CompareInt(x, y)
  }

  /** `bytes.Compare` and the order on Go strings: unsigned octets, left to right. */
  function Compare(a: Str, b: Str): int {
    Lex(CompareByte, a, b)
  }

  lemma CompareIsTotalOrder()
    ensures TotalOrder(Compare)
  {
    forall x, y ensures Compare(x, y) == 0 <==> x == y { LexZero(CompareByte, x, y); }
    forall x, y ensures Compare(x, y) < 0 <==> Compare(y, x) > 0 { LexMirror(CompareByte, x, y); }
    forall x, y, z | Chain(Compare, x, y, z) ensures Compare(x, z) <= 0 {
      LexTransitive(CompareByte, x, y, z);
    }
  }

  /** Two strings agree up to place `p`, where the first ends or its octet is the
      smaller number: the order of section 6.3 of RFC 4034. */
  ghost predicate PrecedesAt(a: Str, b: Str, p: nat) {
    p <= |a| && p < |b| && a[..p] == b[..p] && (p < |a| ==> a[p] < b[p])
  }

  ghost predicate Precedes(a: Str, b: Str) {
    exists p: nat :: PrecedesAt(a, b, p)
  }

  lemma CompareIsOctetOrder(a: Str, b: Str)
    ensures Compare(a, b) < 0 <==> Precedes(a, b)
    ensures Compare(a, b) == 0 <==> a == b
  {
    LexZero(CompareByte, a, b);
    LexFirstDifference(CompareByte, a, b);
    forall p: nat ensures SmallerAt(CompareByte, a, b, p) <==> PrecedesAt(a, b, p) {}
  }

  /** No string of the list comes after a later one. */
  ghost predicate InOctetOrder(s: seq<Str>) {
    forall i, j :: 0 <= i < j < |s| ==> s[i] == s[j] || Precedes(s[i], s[j])
  }

  lemma SortedIsInOctetOrder(s: seq<Str>)
    ensures Sorted(Compare, s) <==> InOctetOrder(s)
  {
    forall i, j | 0 <= i < j < |s| ensures Compare(s[i], s[j]) <= 0 <==> s[i] == s[j] || Precedes(s[i], s[j]) {
      CompareIsOctetOrder(s[i], s[j]);
    }
  }

  /** `binary.BigEndian.PutUint16`. */
  function PutU16(v: u16): (b: Str)
    ensures |b| == 2
  {
    [v / 0x100, v % 0x100]
  }

  /** `binary.BigEndian.PutUint32`. */
  function PutU32(v: u32): (b: Str)
    ensures |b| == 4
  {
    [v / 0x100_0000, v / 0x1_0000 % 0x100, v / 0x100 % 0x100, v % 0x100]
  }

  function GetU16(b: Str): u16
    requires |b| >= 2
  {
    var hi: int, lo: int := b[0], b[1];
    hi * 0x100 + lo
  }

  function GetU32(b: Str): u32
    requires |b| >= 4
  {
    var b0: int, b1: int, b2: int, b3: int := b[0], b[1], b[2], b[3];
    b0 * 0x100_0000 + b1 * 0x1_0000 + b2 * 0x100 + b3
  }

  /** The number that octets spell, the most significant octet first. */
  function Number(b: Str): nat {
    if b == [] then 0 else Number(b[..|b| - 1]) * 0x100 + At(b, |b| - 1)
  }

  /** Octets are written and read as base-256 digits, the highest first. */
  lemma BigEndianDigits(v: u16, w: u32, b: Str)
    ensures Number(PutU16(v)) == v && Number(PutU32(w)) == w
    ensures |b| >= 2 ==> GetU16(b) == Number(b[..2])
    ensures |b| >= 4 ==> GetU32(b) == Number(b[..4])
  {
    NumberOfTwo(PutU16(v));
    NumberOfFour(PutU32(w));
    BigEndianRoundTrip(v, w, []);
    assert PutU16(v) + [] == PutU16(v) && PutU32(w) + [] == PutU32(w);
    if |b| >= 2 {
      NumberOfTwo(b[..2]);
    }
    if |b| >= 4 {
      NumberOfFour(b[..4]);
    }
  }

  lemma NumberOfTwo(b: Str)
    requires |b| == 2
    ensures Number(b) == At(b, 0) * 0x100 + At(b, 1)
  {
    assert b[..1][..0] == [] && Number(b[..1]) == At(b, 0);
  }

  lemma NumberOfFour(b: Str)
    requires |b| == 4
    ensures Number(b) == At(b, 0) * 0x100_0000 + At(b, 1) * 0x1_0000 + At(b, 2) * 0x100 + At(b, 3)
  {
    NumberOfTwo(b[..2]);
    assert b[..3][..2] == b[..2] && Number(b[..3]) == Number(b[..2]) * 0x100 + At(b, 2);
  }

  lemma BigEndianRoundTrip(v: u16, w: u32, rest: Str)
    ensures GetU16(PutU16(v) + rest) == v
    ensures GetU32(PutU32(w) + rest) == w
  {
    assert w / 0x100 == w / 0x1_0000 * 0x100 + w / 0x100 % 0x100;
    assert w / 0x1_0000 == w / 0x100_0000 * 0x100 + w / 0x1_0000 % 0x100;
  }

  lemma PutOfGet(b: Str)
    requires |b| >= 2
    ensures PutU16(GetU16(b)) == b[..2]
  {
    var hi: int, lo: int := b[0], b[1];
    assert (hi * 0x100 + lo) / 0x100 == hi && (hi * 0x100 + lo) % 0x100 == lo;
  }

  /** An octet as an unbounded number, for offset arithmetic. */
  function At(b: Str, i: nat): nat
    requires i < |b|
  {
    b[i]
  }

  /** Go's `byte(n)` conversion: truncation to eight bits. */
  function ToByte(n: nat): byte {
    n % 0x100
  }

  /** `strconv.Itoa` on the record types, which are never negative. */
  function Itoa(n: nat): Str {
    if n < 10 then [48 + n] else Itoa(n / 10) + [48 + n % 10]
  }

  predicate IsDigit(b: byte) {
    48 <= b <= 57
  }

  function Value(s: Str): int {
    if s == [] then 0 else Value(s[..|s| - 1]) * 10 + s[|s| - 1] - 48
  }

  lemma {:induction false} ItoaValue(n: nat)
    ensures Itoa(n) != [] && (forall i :: 0 <= i < |Itoa(n)| ==> IsDigit(Itoa(n)[i]))
    ensures Value(Itoa(n)) == n
  {
    if n < 10 {
      assert Value([]) == 0;
      assert Itoa(n)[..0] == [];
    } else {
      ItoaValue(n / 10);
      var p, d := Itoa(n / 10), 48 + n % 10;
      assert (p + [d])[..|p + [d]| - 1] == p;
    }
  }
}
