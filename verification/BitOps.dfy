/** Bitwise operations on natural numbers, written out bit by bit. */
module BitOps {

  /** Bit `p` of `v`, counted from the least significant. */
  predicate TestBit(v: nat, p: nat) {
    if p == 0 then v % 2 == 1 else TestBit(v / 2, p - 1)
  }

  /** `v | w`. */
  function Or(v: nat, w: nat): nat
    decreases v + w
  {
    if v == 0 then w
    else if w == 0 then v
    else 2 * Or(v / 2, w / 2) + if v % 2 == 1 || w % 2 == 1 then 1 else 0
  }

  function Pow2(n: nat): nat {
    if n == 0 then 1 else 2 * Pow2(n - 1)
  }

  /** `0x80 >> k`. */
  function Mask(k: nat): nat
    requires k < 8
  {
    Pow2(7 - k)
  }

  lemma {:induction false} ZeroHasNoBits(p: nat)
    ensures !TestBit(0, p)
  {
    if p > 0 { ZeroHasNoBits(p - 1); }
  }

  lemma {:induction false} OrBits(v: nat, w: nat, p: nat)
    ensures TestBit(Or(v, w), p) <==> TestBit(v, p) || TestBit(w, p)
    decreases p
  {
    ZeroHasNoBits(p);
    if v != 0 && w != 0 {
      var b := if v % 2 == 1 || w % 2 == 1 then 1 else 0;
      assert Or(v, w) / 2 == Or(v / 2, w / 2);
      if p > 0 { OrBits(v / 2, w / 2, p - 1); }
    }
  }

  lemma {:induction false} OrBound(v: nat, w: nat, n: nat)
    requires v < Pow2(n) && w < Pow2(n)
    ensures Or(v, w) < Pow2(n)
  {
    if v != 0 && w != 0 {
      OrBound(v / 2, w / 2, n - 1);
    }
  }

  lemma {:induction false} Pow2Bits(q: nat, p: nat)
    ensures TestBit(Pow2(q), p) <==> p == q
  {
    if q == 0 {
      if p > 0 { ZeroHasNoBits(p - 1); }
    } else if p > 0 {
      Pow2Bits(q - 1, p - 1);
    }
  }

  lemma {:induction false} NonZeroHasBit(v: nat, n: nat) returns (p: nat)
    requires 0 < v < Pow2(n)
    ensures p < n && TestBit(v, p)
  {
    if v % 2 == 1 {
      p := 0;
    } else {
      p := NonZeroHasBit(v / 2, n - 1);
      p := p + 1;
    }
  }

  lemma {:induction false} SameBits(v: nat, w: nat, n: nat)
    requires v < Pow2(n) && w < Pow2(n)
    requires forall p: nat :: p < n ==> (TestBit(v, p) <==> TestBit(w, p))
    ensures v == w
  {
    if n > 0 {
      assert TestBit(v, 0) <==> TestBit(w, 0);
      forall p: nat | p < n - 1 ensures TestBit(v / 2, p) <==> TestBit(w / 2, p) {
        assert TestBit(v, p + 1) <==> TestBit(w, p + 1);
      }
      SameBits(v / 2, w / 2, n - 1);
    }
  }
}
