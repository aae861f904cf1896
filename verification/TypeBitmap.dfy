/** The NSEC/NSEC3 type bitmap (section 4.1.2 of RFC 4034): ZoneLint's encoder,
    a strict decoder written from the RFC, and the bijection between them. */
module TypeBitmap {
  import opened Ordering
  import opened Bytes
  import opened BitOps

  function CompareType(x: u16, y: u16): int {
    CompareInt(x, y)
  }

  lemma CompareTypeIsTotalOrder()
    ensures TotalOrder(CompareType)
  {
  }

  // ----- bits -----

  /** Is bit `k` of an octet set, counted from the most significant? */
  predicate Bit(b: byte, k: nat)
    requires k < 8
  {
    TestBit(b, 7 - k)
  }

  /** `b | 0x80 >> k`. */
  function OrMask(b: byte, k: nat): byte
    requires k < 8
  {
    Pow2Grows(7 - k);
    OrBound(b, Mask(k), 8);
    Or(b, Mask(k))
  }

  const WEIGHTS: seq<nat> := [0x80, 0x40, 0x20, 0x10, 8, 4, 2, 1]

  /** Bit 0 is the most significant: bit `k` is worth 0x80 shifted right `k` times. */
  lemma BitHasWeight(b: byte, k: nat)
    requires k < 8
    ensures Bit(b, k) <==> b / WEIGHTS[k] % 2 == 1
  {
    var v: nat := b;
    assert WEIGHTS[7 - (7 - k)] == WEIGHTS[k];
    BitOfWeight(v, 7 - k);
  }

  lemma {:induction false} BitOfWeight(v: nat, p: nat)
    requires p < 8
    ensures TestBit(v, p) <==> v / WEIGHTS[7 - p] % 2 == 1
  {
    if p > 0 {
      BitOfWeight(v / 2, p - 1);
      assert v / 2 / WEIGHTS[8 - p] == v / WEIGHTS[7 - p];
    }
  }

  lemma {:induction false} Pow2Grows(n: nat)
    requires n <= 7
    ensures Pow2(n) < Pow2(8) == 0x100
    decreases 7 - n
  {
    assert Pow2(3) == 8 && Pow2(6) == 64 && Pow2(8) == 0x100;
    if n < 7 { Pow2Grows(n + 1); }
  }

  lemma OrMaskSetsOneBit(b: byte, k: nat, j: nat)
    requires k < 8 && j < 8
    ensures Bit(OrMask(b, k), j) <==> j == k || Bit(b, j)
  {
    OrBits(b, Mask(k), 7 - j);
    Pow2Bits(7 - k, 7 - j);
  }

  lemma SameBitsSameOctet(a: byte, b: byte)
    requires forall k: nat :: k < 8 ==> (Bit(a, k) <==> Bit(b, k))
    ensures a == b
  {
    forall p: nat | p < 8 ensures TestBit(a, p) <==> TestBit(b, p) {
      assert Bit(a, 7 - p) <==> Bit(b, 7 - p);
    }
    Pow2Grows(7);
    SameBits(a, b, 8);
  }

  /** Bit `i` of a bitmap, counted from the most significant bit of octet 0. */
  predicate Holds(bits: Str, i: nat) {
    i / 8 < |bits| && Bit(bits[i / 8], i % 8)
  }

  lemma SameBitsSameOctets(a: Str, b: Str)
    requires |a| == |b|
    requires forall i: nat :: Holds(a, i) <==> Holds(b, i)
    ensures a == b
  {
    forall j | 0 <= j < |a| ensures a[j] == b[j] {
      forall k: nat | k < 8 ensures Bit(a[j], k) <==> Bit(b[j], k) {
        var i := 8 * j + k;
        assert i / 8 == j && i % 8 == k;
        assert Holds(a, i) <==> Holds(b, i);
      }
      SameBitsSameOctet(a[j], b[j]);
    }
  }

  // ----- the encoder, as a function of the sorted types -----

  function Zeros(n: nat): (z: Str)
    ensures |z| == n && forall i :: 0 <= i < n ==> z[i] == 0
  {
    if n == 0 then [] else Zeros(n - 1) + [0]
  }

  /** The 32 octets that the inner loop fills in for one window. */
  function Octets(s: seq<u16>): (bits: Str)
    ensures |bits| == 32
  {
    if s == [] then Zeros(32)
    else
      var r := Octets(s[..|s| - 1]);
      var t: int := s[|s| - 1];
      r[t % 0x100 / 8 := OrMask(r[t % 0x100 / 8], t % 8)]
  }

  /** Trailing zero octets are dropped. */
  function Trim(bits: Str): (r: Str)
    ensures |r| <= |bits|
  {
    if bits == [] || bits[|bits| - 1] != 0 then bits else Trim(bits[..|bits| - 1])
  }

  function WindowOf(t: u16): byte {
    var v: int := t;
    v / 0x100
  }

  /** How many leading types share window `w`. */
  function Run(s: seq<u16>, w: byte): (n: nat)
    ensures n <= |s|
  {
    if s == [] || WindowOf(s[0]) != w then 0 else 1 + Run(s[1..], w)
  }

  function Encode(s: seq<u16>): Str {
    if s == [] then []
    else
      var w := WindowOf(s[0]);
      var n := Run(s, w);
      var block := Trim(Octets(s[..n]));
      [w, |block|] + block + Encode(s[n..])
  }

  /** The bitmap of an arbitrary list of types, as `typeBitmap` computes it. */
  function Bitmap(types: seq<u16>): Str {
    Encode(SortOnce(CompareType, types))
  }

  // ----- the decoder of section 4.1.2 of RFC 4034 -----

  function TypesFrom(w: byte, bits: Str, i: nat): seq<u16>
    requires |bits| <= 32
    decreases 8 * |bits| - i
  {
    if i >= 8 * |bits| then []
    else
      var v: int := w;
      (if Holds(bits, i) then [v * 0x100 + i] else []) + TypesFrom(w, bits, i + 1)
  }

  /** `prev` is the window of the block before, -1 at the start. Windows must
      increase, a block has 1 to 32 octets and does not end in a zero octet. */
  function Decode(b: Str, prev: int): Option<seq<u16>> {
    if b == [] then Some([])
    else if |b| < 2 || b[0] <= prev || b[1] == 0 || b[1] > 32 || |b| < 2 + b[1] || b[1 + b[1]] == 0 then None
    else
      match Decode(b[2 + b[1]..], b[0])
      case None => None
      case Some(rest) => Some(TypesFrom(b[0], b[2..2 + b[1]], 0) + rest)
  }

  // ----- one block -----

  lemma OctetsNext(s: seq<u16>, i: nat)
    requires s != [] && i < 0x100
    ensures Holds(Octets(s), i) <==> Holds(Octets(s[..|s| - 1]), i) || i == s[|s| - 1] % 0x100
  {
    SetBitInOctets(Octets(s[..|s| - 1]), s[|s| - 1], i);
  }

  lemma SetBitInOctets(r: Str, t: u16, i: nat)
    requires |r| == 32 && i < 0x100
    ensures Holds(r[t % 0x100 / 8 := OrMask(r[t % 0x100 / 8], t % 8)], i) <==> Holds(r, i) || i == t % 0x100
  {
    var low := t % 0x100;
    assert low % 8 == t % 8;
    assert low == 8 * (low / 8) + low % 8 && i == 8 * (i / 8) + i % 8;
    if i / 8 == low / 8 {
      OrMaskSetsOneBit(r[low / 8], low % 8, i % 8);
    }
  }

  /** Some type of `s` has low octet `i`. */
  ghost predicate HasLow(s: seq<u16>, i: nat) {
    exists j :: 0 <= j < |s| && s[j] % 0x100 == i
  }

  lemma HasLowNext(s: seq<u16>, i: nat)
    requires s != []
    ensures HasLow(s, i) <==> HasLow(s[..|s| - 1], i) || i == s[|s| - 1] % 0x100
  {
    var p := s[..|s| - 1];
    if HasLow(p, i) {
      var j :| 0 <= j < |p| && p[j] % 0x100 == i;
      assert s[j] % 0x100 == i;
    }
    if HasLow(s, i) {
      var j :| 0 <= j < |s| && s[j] % 0x100 == i;
      assert j < |p| ==> p[j] % 0x100 == i;
    }
  }

  lemma {:induction false} BitsHold(s: seq<u16>, i: nat)
    requires i < 0x100
    ensures Holds(Octets(s), i) <==> HasLow(s, i)
  {
    if s == [] {
      ZeroHasNoBits(7 - i % 8);
    } else {
      BitsHold(s[..|s| - 1], i);
      OctetsNext(s, i);
      HasLowNext(s, i);
    }
  }

  lemma {:induction false} TrimKeepsBits(bits: Str, i: nat)
    ensures Holds(Trim(bits), i) <==> Holds(bits, i)
    ensures Trim(bits) == [] || Trim(bits)[|Trim(bits)| - 1] != 0
  {
    if bits == [] || bits[|bits| - 1] != 0 {
    } else {
      ZeroHasNoBits(7 - i % 8);
      TrimKeepsBits(bits[..|bits| - 1], i);
    }
  }

  lemma {:induction false} TypesFromSpec(w: byte, bits: Str, i: nat, t: u16)
    requires |bits| <= 32
    ensures t in TypesFrom(w, bits, i) <==> WindowOf(t) == w && i <= t % 0x100 && Holds(bits, t % 0x100)
    decreases 8 * |bits| - i
  {
    if i >= 8 * |bits| {
    } else {
      TypesFromSpec(w, bits, i + 1, t);
      var v: int := w;
      assert (v * 0x100 + i) / 0x100 == v && (v * 0x100 + i) % 0x100 == i;
    }
  }

  lemma {:induction false} TypesFromSorted(w: byte, bits: Str, i: nat)
    requires |bits| <= 32
    ensures StrictlySorted(CompareType, TypesFrom(w, bits, i))
    decreases 8 * |bits| - i
  {
    if i >= 8 * |bits| {
    } else {
      TypesFromSorted(w, bits, i + 1);
      if Holds(bits, i) {
        var r := TypesFrom(w, bits, i + 1);
        var v: int := w;
        var first: u16 := v * 0x100 + i;
        forall t | t in r ensures CompareType(first, t) < 0 {
          TypesFromSpec(w, bits, i + 1, t);
        }
        StrictlySortedCons(CompareType, first, r);
      }
    }
  }

  ghost predicate InWindow(s: seq<u16>, w: byte) {
    forall j :: 0 <= j < |s| ==> WindowOf(s[j]) == w
  }

  /** Types to octets and back, within one window. */
  lemma BlockRoundTrip(w: byte, s: seq<u16>)
    requires StrictlySorted(CompareType, s) && InWindow(s, w)
    ensures TypesFrom(w, Trim(Octets(s)), 0) == s
  {
    var c := Trim(Octets(s));
    forall t: u16 ensures t in TypesFrom(w, c, 0) <==> t in s {
      TypesFromSpec(w, c, 0, t);
      TrimKeepsBits(Octets(s), t % 0x100);
      BitsHold(s, t % 0x100);
      if HasLow(s, t % 0x100) {
        var j :| 0 <= j < |s| && s[j] % 0x100 == t % 0x100;
        assert WindowOf(s[j]) == w;
        assert WindowOf(t) == w ==> s[j] == t;
      }
      if t in s {
        var j :| 0 <= j < |s| && s[j] == t;
        assert s[j] % 0x100 == t % 0x100;
      }
    }
    TypesFromSorted(w, c, 0);
    CompareTypeIsTotalOrder();
    StrictlySortedUnique(CompareType, TypesFrom(w, c, 0), s);
  }

  lemma {:induction false} TrimPadding(c: Str, n: nat)
    requires c == [] || c[|c| - 1] != 0
    ensures Trim(c + Zeros(n)) == c
  {
    var p := c + Zeros(n);
    if n == 0 {
      assert p == c;
    } else {
      assert p[..|p| - 1] == c + Zeros(n - 1);
      TrimPadding(c, n - 1);
    }
  }

  lemma LowOfBlock(w: byte, c: Str, i: nat)
    requires |c| <= 32 && i < 0x100
    ensures HasLow(TypesFrom(w, c, 0), i) <==> Holds(c, i)
  {
    var s := TypesFrom(w, c, 0);
    var v: int := w;
    var t: u16 := v * 0x100 + i;
    assert t / 0x100 == v && t % 0x100 == i;
    TypesFromSpec(w, c, 0, t);
    if HasLow(s, i) {
      var j :| 0 <= j < |s| && s[j] % 0x100 == i;
      TypesFromSpec(w, c, 0, s[j]);
    }
  }

  lemma PaddingHoldsNothing(c: Str, n: nat, i: nat)
    ensures Holds(c + Zeros(n), i) <==> Holds(c, i)
  {
    ZeroHasNoBits(7 - i % 8);
  }

  /** Octets to types and back, within one window. */
  lemma BlockIsCanonical(w: byte, c: Str)
    requires |c| <= 32 && (c == [] || c[|c| - 1] != 0)
    ensures Trim(Octets(TypesFrom(w, c, 0))) == c
  {
    var s := TypesFrom(w, c, 0);
    var p := c + Zeros(32 - |c|);
    forall i: nat ensures Holds(Octets(s), i) <==> Holds(p, i) {
      if i < 0x100 {
        BitsHold(s, i);
        LowOfBlock(w, c, i);
        PaddingHoldsNothing(c, 32 - |c|, i);
      }
    }
    SameBitsSameOctets(Octets(s), p);
    TrimPadding(c, 32 - |c|);
  }

  // ----- all windows -----

  lemma {:induction false} RunIsWindow(s: seq<u16>, w: byte)
    ensures InWindow(s[..Run(s, w)], w)
    ensures Run(s, w) < |s| ==> WindowOf(s[Run(s, w)]) != w
  {
    if s == [] || WindowOf(s[0]) != w {
    } else {
      RunIsWindow(s[1..], w);
      var n := Run(s[1..], w);
      assert s[..1 + n] == [s[0]] + s[1..][..n];
    }
  }

  lemma WindowsAscend(s: seq<u16>, w: byte)
    requires StrictlySorted(CompareType, s) && s != [] && w == WindowOf(s[0])
    ensures var n := Run(s, w);
            0 < n && StrictlySorted(CompareType, s[..n]) && StrictlySorted(CompareType, s[n..])
            && (n < |s| ==> w < WindowOf(s[n]))
  {
    RunIsWindow(s, w);
    var n := Run(s, w);
    if n < |s| {
      assert CompareType(s[0], s[n]) < 0;
    }
  }

  /** A window that holds a type has a block of at least one octet. */
  lemma BlockIsNonEmpty(s: seq<u16>)
    requires s != []
    ensures 0 < |Trim(Octets(s))| <= 32
  {
    var i := s[0] % 0x100;
    BitsHold(s, i);
    TrimKeepsBits(Octets(s), i);
  }

  /** How the decoder reads one block. */
  lemma DecodeBlock(w: byte, block: Str, rest: Str, prev: int)
    requires prev < w && 0 < |block| <= 32 && block[|block| - 1] != 0
    ensures Decode([w, |block|] + block + rest, prev)
            == match Decode(rest, w) { case None => None case Some(r) => Some(TypesFrom(w, block, 0) + r) }
  {
    var n: byte := |block|;
    var b := [w, n] + block + rest;
    assert b[0] == w && b[1] == n && b[1 + n] == block[n - 1];
    assert b[2..2 + n] == block && b[2 + n..] == rest;
  }

  lemma EncodeWindow(w: byte, s: seq<u16>, rest: Str, r: seq<u16>, prev: int)
    requires s != [] && prev < w && StrictlySorted(CompareType, s) && InWindow(s, w)
    requires Decode(rest, w) == Some(r)
    ensures var block := Trim(Octets(s));
            |block| <= 32 && Decode([w, |block|] + block + rest, prev) == Some(s + r)
  {
    BlockIsNonEmpty(s);
    TrimKeepsBits(Octets(s), 0);
    BlockRoundTrip(w, s);
    DecodeBlock(w, Trim(Octets(s)), rest, prev);
  }

  lemma EncodeUnfolds(s: seq<u16>, w: byte, n: nat)
    requires s != [] && w == WindowOf(s[0]) && n == Run(s, w)
    ensures var block := Trim(Octets(s[..n])); Encode(s) == [w, |block|] + block + Encode(s[n..])
  {
  }

  lemma WindowRoundTrip(w: byte, s: seq<u16>, rest: Str, r: seq<u16>, prev: int, b: Str)
    requires s != [] && prev < w && StrictlySorted(CompareType, s) && InWindow(s, w)
    requires Decode(rest, w) == Some(r) && b == [w, |Trim(Octets(s))|] + Trim(Octets(s)) + rest
    ensures Decode(b, prev) == Some(s + r)
  {
    EncodeWindow(w, s, rest, r, prev);
  }

  lemma SplitAt(s: seq<u16>, n: nat)
    requires n <= |s|
    ensures s[..n] + s[n..] == s
  {
  }

  /** Decoding what was encoded gives the types back. */
  lemma {:induction false} EncodeRoundTrip(s: seq<u16>, prev: int)
    requires StrictlySorted(CompareType, s)
    requires s != [] ==> prev < WindowOf(s[0])
    ensures Decode(Encode(s), prev) == Some(s)
    decreases |s|
  {
    if s != [] {
      var w := WindowOf(s[0]);
      var n := Run(s, w);
      WindowsAscend(s, w);
      EncodeRoundTrip(s[n..], w);
      RunIsWindow(s, w);
      SplitAt(s, n);
      EncodeUnfolds(s, w, n);
      WindowRoundTrip(w, s[..n], Encode(s[n..]), s[n..], prev, Encode(s));
    }
  }

  lemma {:induction false} RunOfConcat(s: seq<u16>, r: seq<u16>, w: byte)
    requires InWindow(s, w) && (r != [] ==> WindowOf(r[0]) != w)
    ensures Run(s + r, w) == |s|
  {
    if s == [] {
      assert s + r == r;
    } else {
      assert (s + r)[1..] == s[1..] + r;
      RunOfConcat(s[1..], r, w);
    }
  }

  lemma ConcatSorted(s: seq<u16>, r: seq<u16>, w: byte)
    requires StrictlySorted(CompareType, s) && StrictlySorted(CompareType, r)
    requires InWindow(s, w) && (r != [] ==> w < WindowOf(r[0]))
    ensures StrictlySorted(CompareType, s + r)
  {
    var q := s + r;
    forall i, j | 0 <= i < j < |q| ensures CompareType(q[i], q[j]) < 0 {
      if i < |s| <= j {
        assert WindowOf(q[i]) == w;
        assert j > |s| ==> CompareType(r[0], r[j - |s|]) < 0;
      }
    }
  }

  lemma TypesOfBlock(w: byte, c: Str)
    requires 0 < |c| <= 32 && c[|c| - 1] != 0
    ensures var s := TypesFrom(w, c, 0); s != [] && InWindow(s, w)
  {
    var s := TypesFrom(w, c, 0);
    forall j | 0 <= j < |s| ensures WindowOf(s[j]) == w {
      TypesFromSpec(w, c, 0, s[j]);
    }
    Pow2Grows(7);
    var p := NonZeroHasBit(c[|c| - 1], 8);
    var k := 7 - p;
    var i := 8 * (|c| - 1) + k;
    assert i / 8 == |c| - 1 && i % 8 == k;
    var v: int := w;
    assert (v * 0x100 + i) % 0x100 == i;
    TypesFromSpec(w, c, 0, v * 0x100 + i);
  }

  /** One block of well-formed wire data followed by later windows. */
  lemma EncodeOfBlock(w: byte, c: Str, r: seq<u16>)
    requires 0 < |c| <= 32 && c[|c| - 1] != 0
    requires StrictlySorted(CompareType, r) && (r != [] ==> w < WindowOf(r[0]))
    ensures var s := TypesFrom(w, c, 0);
            s != [] && WindowOf(s[0]) == w && StrictlySorted(CompareType, s + r)
            && Encode(s + r) == [w, |c|] + c + Encode(r)
  {
    var s := TypesFrom(w, c, 0);
    TypesOfBlock(w, c);
    TypesFromSorted(w, c, 0);
    ConcatSorted(s, r, w);
    RunOfConcat(s, r, w);
    BlockIsCanonical(w, c);
    assert (s + r)[..|s|] == s && (s + r)[|s|..] == r;
  }

  /** Every byte string the strict decoder accepts is the encoding of what it
      decodes to: the wire form is unique, and decoded types come sorted. */
  lemma {:induction false} DecodeIsCanonical(b: Str, prev: int)
    requires prev >= -1 && Decode(b, prev).Some?
    ensures var s := Decode(b, prev).value;
            StrictlySorted(CompareType, s) && (s != [] ==> prev < WindowOf(s[0])) && Encode(s) == b
    decreases |b|
  {
    if b != [] {
      var w, c, rest := SplitBlock(b, prev);
      DecodeIsCanonical(rest, w);
      EncodeOfBlock(w, c, Decode(rest, w).value);
    }
  }

  /** The first block of well-formed wire data. */
  lemma SplitBlock(b: Str, prev: int) returns (w: byte, c: Str, rest: Str)
    requires b != [] && Decode(b, prev).Some?
    ensures prev < w && 0 < |c| <= 32 && c[|c| - 1] != 0 && b == [w, |c|] + c + rest
    ensures Decode(rest, w).Some? && Decode(b, prev).value == TypesFrom(w, c, 0) + Decode(rest, w).value
  {
    var n := b[1];
    w, c, rest := b[0], b[2..2 + n], b[2 + n..];
    assert b == [w, n] + c + rest;
  }

  /** A bitmap that decodes is short: at most 34 octets for each of 256 windows. */
  lemma {:induction false} DecodeBoundsLength(b: Str, prev: int)
    requires prev >= -1 && Decode(b, prev).Some?
    ensures |b| == 0 || (prev < 255 && |b| <= 34 * (255 - prev))
    decreases |b|
  {
    if b != [] {
      DecodeBoundsLength(b[2 + b[1]..], b[0]);
    }
  }

  // ----- main results -----

  /** `typeBitmap` produces a well-formed bitmap that decodes to exactly the
      distinct types of its input, in increasing order. */
  lemma BitmapRoundTrip(types: seq<u16>)
    ensures Decode(Bitmap(types), -1) == Some(SortOnce(CompareType, types))
    ensures StrictlySorted(CompareType, SortOnce(CompareType, types))
    ensures SameElements(SortOnce(CompareType, types), types)
    ensures |Bitmap(types)| <= 34 * 256
  {
    CompareTypeIsTotalOrder();
    SortOnceSorted(CompareType, types);
    EncodeRoundTrip(SortOnce(CompareType, types), -1);
    DecodeBoundsLength(Bitmap(types), -1);
  }

  /** Two lists of types have the same bytes exactly when they list the same
      set of types: order and repetition do not matter, and nothing is lost. */
  lemma BitmapIsCanonical(a: seq<u16>, b: seq<u16>)
    ensures Bitmap(a) == Bitmap(b) <==> SameElements(a, b)
  {
    CompareTypeIsTotalOrder();
    BitmapRoundTrip(a);
    BitmapRoundTrip(b);
    SortOnceIsSetEquality(CompareType, a, b);
  }

  lemma {:induction false} NoMoreTypes(w: byte, i: nat)
    requires 2 <= i <= 8
    ensures TypesFrom(w, [0x40], i) == []
    decreases 8 - i
  {
    if i < 8 {
      BitHasWeight(0x40, i);
      NoMoreTypes(w, i + 1);
    }
  }

  lemma TypesOfOne(w: byte, t: u16)
    requires t == (w as int) * 0x100 + 1
    ensures TypesFrom(w, [0x40], 0) == [t]
  {
    BitHasWeight(0x40, 0);
    BitHasWeight(0x40, 1);
    NoMoreTypes(w, 2);
    assert TypesFrom(w, [0x40], 1) == [t] + [];
  }

  lemma LastBlock(w: byte, block: Str, b: Str)
    requires 0 < |block| <= 32 && block[|block| - 1] != 0 && b == [w, |block|] + block
    ensures Decode(b, -1) == Some(TypesFrom(w, block, 0))
  {
    assert b == [w, |block|] + block + [];
    DecodeBlock(w, block, [], -1);
    assert TypesFrom(w, block, 0) + [] == TypesFrom(w, block, 0);
  }

  lemma BitmapOfDecoded(b: Str, types: seq<u16>)
    requires Decode(b, -1) == Some(SortOnce(CompareType, types))
    ensures Bitmap(types) == b
  {
    DecodeIsCanonical(b, -1);
  }

  lemma SortOnceOne(t: u16)
    ensures SortOnce(CompareType, [t]) == [t]
  {
    assert SortOnce(CompareType, []) == [] && [t][1..] == [];
  }

  /** A known answer in every window: type 1 is the second bit of octet 0. */
  lemma BitmapOfOne(w: byte, t: u16)
    requires t == (w as int) * 0x100 + 1
    ensures Bitmap([t]) == [w, 1, 0x40]
  {
    TypesOfOne(w, t);
    LastBlock(w, [0x40], [w, 1, 0x40]);
    SortOnceOne(t);
    BitmapOfDecoded([w, 1, 0x40], [t]);
  }

  // ----- the code -----

  /** The first loop of `typeBitmap`: drop repetitions, keep first occurrences. */
  method Dedupe(types: seq<u16>) returns (sorted: seq<u16>)
    ensures Distinct(sorted) && SameElements(sorted, types)
  {
    sorted := [];
    var seen: set<u16> := {};
    for i := 0 to |types|
      invariant Distinct(sorted)
      invariant forall t :: t in seen <==> t in sorted
      invariant forall t :: t in sorted <==> t in types[..i]
    {
      assert types[..i + 1] == types[..i] + [types[i]];
      if types[i] !in seen {
        seen := seen + {types[i]};
        sorted := sorted + [types[i]];
      }
    }
    assert types[..|types|] == types;
  }

  /** The inner loop of the insertion sort: element `i` moves down to its place. */
  method MoveDown(sorted: array<u16>, i: nat)
    requires i < sorted.Length && forall p, q :: 0 <= p < q < i ==> sorted[p] <= sorted[q]
    modifies sorted
    ensures forall p, q :: 0 <= p < q <= i ==> sorted[p] <= sorted[q]
    ensures multiset(sorted[..]) == multiset(old(sorted[..]))
  {
    var j := i;
    while j > 0 && sorted[j] < sorted[j - 1]
      invariant 0 <= j <= i
      invariant forall p, q :: 0 <= p < q <= i && q != j ==> sorted[p] <= sorted[q]
      invariant multiset(sorted[..]) == multiset(old(sorted[..]))
    {
      sorted[j], sorted[j - 1] := sorted[j - 1], sorted[j];
      j := j - 1;
    }
  }

  /** The in-place insertion sort of `typeBitmap`. */
  method InsertionSort(sorted: array<u16>)
    modifies sorted
    ensures Sorted(CompareType, sorted[..])
    ensures multiset(sorted[..]) == multiset(old(sorted[..]))
  {
    var i := 1;
    while i < sorted.Length
      invariant 1 <= i
      invariant forall p, q :: 0 <= p < q < i && q < sorted.Length ==> sorted[p] <= sorted[q]
      invariant multiset(sorted[..]) == multiset(old(sorted[..]))
    {
      MoveDown(sorted, i);
      i := i + 1;
    }
  }

  /** Sets the bits of one window. */
  method FillBlock(types: seq<u16>) returns (bits: array<byte>)
    ensures fresh(bits) && bits[..] == Octets(types)
  {
    bits := new byte[32](i => 0);
    assert bits[..] == Zeros(32);
    assert types[..0] == [];
    for i := 0 to |types|
      invariant fresh(bits) && bits[..] == Octets(types[..i])
    {
      var t: int := types[i];
      var k := t % 0x100 / 8;
      assert types[..i + 1][..i] == types[..i] && types[..i + 1][i] == types[i];
      assert bits[k] == Octets(types[..i])[k];
      bits[k] := OrMask(bits[k], t % 8);
    }
    assert types[..|types|] == types;
  }

  /** Fills in and trims the octets of one window. */
  method EncodeBlock(types: seq<u16>) returns (block: Str)
    ensures block == Trim(Octets(types))
  {
    var bits := FillBlock(types);
    ghost var octets := bits[..];
    var n := 32;
    assert octets[..32] == octets;
    while n > 0 && bits[n - 1] == 0
      invariant 0 <= n <= 32 && bits[..] == octets && |octets| == 32
      invariant Trim(octets[..n]) == Trim(octets)
    {
      assert octets[..n][..n - 1] == octets[..n - 1];
      assert octets[..n][n - 1] == bits[n - 1];
      n := n - 1;
    }
    assert n > 0 ==> octets[..n][n - 1] == bits[n - 1];
    block := bits[..n];
    assert block == octets[..n];
  }

  /** Finds the end of the run of types that share the window of `s[i]`. */
  method FindRun(s: seq<u16>, i: nat) returns (last: nat)
    requires i < |s|
    ensures i < last <= |s| && last - i == Run(s[i..], WindowOf(s[i]))
  {
    var window := WindowOf(s[i]);
    last := i;
    while last < |s| && WindowOf(s[last]) == window
      invariant i <= last <= |s|
      invariant last - i + Run(s[last..], window) == Run(s[i..], window)
    {
      assert s[last..][1..] == s[last + 1..] && s[last..][0] == s[last];
      last := last + 1;
    }
    assert last < |s| ==> s[last..][0] == s[last];
    assert s[i..][0] == s[i];
  }

  method TypeBitmap(types: seq<u16>) returns (out: Str)
    ensures out == Bitmap(types)
  {
    var uniq := Dedupe(types);
    var sorted := new u16[|uniq|](i requires 0 <= i < |uniq| => uniq[i]);
    assert sorted[..] == uniq;
    InsertionSort(sorted);
    CompareTypeIsTotalOrder();
    SortedDistinctIsSortOnce(CompareType, types, uniq, sorted[..]);
    out := EncodeWindows(sorted[..]);
  }

  lemma EncodeFrom(s: seq<u16>, i: nat, last: nat)
    requires i < last <= |s| && last - i == Run(s[i..], WindowOf(s[i]))
    ensures var block := Trim(Octets(s[i..last]));
            Encode(s[i..]) == [WindowOf(s[i]), |block|] + block + Encode(s[last..])
  {
    assert s[i..][0] == s[i];
    assert s[i..][..last - i] == s[i..last] && s[i..][last - i..] == s[last..];
  }

  /** One round of the window loop: the octets of the window that starts at `i`. */
  method EncodeWindowAt(s: seq<u16>, i: nat) returns (head: Str, last: nat)
    requires i < |s|
    ensures i < last <= |s| && Encode(s[i..]) == head + Encode(s[last..])
  {
    last := FindRun(s, i);
    var block := EncodeBlock(s[i..last]);
    EncodeFrom(s, i, last);
    head := [WindowOf(s[i]), |block|] + block;
  }

  /** The window loop of `typeBitmap`. */
  method EncodeWindows(s: seq<u16>) returns (out: Str)
    ensures out == Encode(s)
  {
    out := [];
    var i := 0;
    assert s[0..] == s;
    while i < |s|
      invariant 0 <= i <= |s|
      invariant out + Encode(s[i..]) == Encode(s)
    {
      var head, last := EncodeWindowAt(s, i);
      assert out + (head + Encode(s[last..])) == out + head + Encode(s[last..]);
      out := out + head;
      i := last;
    }
    assert s[i..] == [];
  }
}
