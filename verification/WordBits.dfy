/** The single bits of a 64-bit word. */
module WordBits {

  /** One, shifted left `k` times. */
  function Mask(k: nat): bv64 { if k == 0 then 1 else Mask(k - 1) << 1 }

  predicate Has(x: bv64, m: bv64) { x & m != 0 }

  predicate BitAt(x: bv64, k: nat) { Has(x, Mask(k)) }

  function BvAnd(a: bv64, b: bv64): bv64 { a & b }

  function BvOr(a: bv64, b: bv64): bv64 { a | b }

  function BvXor(a: bv64, b: bv64): bv64 { a ^ b }

  predicate Single(m: bv64) { m != 0 && m & (m - 1) == 0 }

  lemma FourTimes(k: nat)
    ensures Mask(k + 4) == Mask(k) << 4
  {
    hide Mask;
    MaskNext(k);
    MaskNext(k + 1);
    MaskNext(k + 2);
    MaskNext(k + 3);
    ShiftFour(Mask(k));
  }

  lemma MaskNext(k: nat)
    ensures Mask(k + 1) == Mask(k) << 1
  {
  }

  lemma ShiftFour(m: bv64)
    ensures (((m << 1) << 1) << 1) << 1 == m << 4
  {
  }

  lemma SixteenTimes(k: nat)
    ensures Mask(k + 16) == Mask(k) << 16
  {
    hide Mask;
    FourTimes(k);
    FourTimes(k + 4);
    FourTimes(k + 8);
    FourTimes(k + 12);
  }

  lemma TopMask()
    ensures Mask(64 - 1) == 0x8000_0000_0000_0000
  {
    assert Mask(0) == 1;
    FourTimes(0);
    FourTimes(4);
    FourTimes(8);
    assert Mask(15) == 0x8000;
    SixteenTimes(15);
    SixteenTimes(31);
    SixteenTimes(47);
  }

  lemma {:induction false} ZeroStays(k: nat, n: nat)
    requires k <= n && Mask(k) == 0
    ensures Mask(n) == 0
  {
    if k < n {
      ZeroStays(k, n - 1);
    }
  }

  lemma MaskNotZero(k: nat)
    requires k < 64
    ensures Mask(k) != 0
  {
    TopMask();
    if Mask(k) == 0 {
      ZeroStays(k, 63);
    }
  }

  lemma ShiftedSingle(m: bv64)
    requires Single(m) && m << 1 != 0
    ensures Single(m << 1)
  {
  }

  lemma {:induction false} MaskSingle(k: nat)
    requires k < 64
    ensures Single(Mask(k))
  {
    MaskNotZero(k);
    if k > 0 {
      MaskSingle(k - 1);
      ShiftedSingle(Mask(k - 1));
    }
  }

  lemma ShiftedApart(a: bv64, b: bv64)
    ensures (a << 1) & 1 == 0 && (a & b == 0 ==> (a << 1) & (b << 1) == 0)
  {
  }

  lemma {:induction false} MaskApart(j: nat, k: nat)
    requires j < k
    ensures Mask(j) & Mask(k) == 0
  {
    ShiftedApart(Mask(k - 1), if j == 0 then 0 else Mask(j - 1));
    if j > 0 {
      MaskApart(j - 1, k - 1);
    }
  }

  lemma AndRaw(a: bv64, b: bv64, m: bv64)
    requires Single(m)
    ensures Has(a & b, m) <==> Has(a, m) && Has(b, m)
  {
  }

  lemma AndAt(a: bv64, b: bv64, m: bv64)
    requires Single(m)
    ensures Has(BvAnd(a, b), m) <==> Has(a, m) && Has(b, m)
  {
    hide Has, Single;
    AndRaw(a, b, m);
  }

  lemma XorRaw(a: bv64, b: bv64, m: bv64)
    requires Single(m)
    ensures Has(a ^ b, m) <==> Has(a, m) != Has(b, m)
  {
  }

  lemma XorAt(a: bv64, b: bv64, m: bv64)
    requires Single(m)
    ensures Has(BvXor(a, b), m) <==> Has(a, m) != Has(b, m)
  {
    hide Has, Single;
    XorRaw(a, b, m);
  }

  lemma OrClear(a: bv64, b: bv64, m: bv64)
    requires !Has(a, m) && !Has(b, m)
    ensures !Has(a | b, m)
  {
  }

  lemma OrCleared(a: bv64, b: bv64, m: bv64)
    requires !Has(a | b, m)
    ensures !Has(a, m) && !Has(b, m)
  {
  }

  lemma OrAt(a: bv64, b: bv64, m: bv64)
    ensures Has(BvOr(a, b), m) <==> Has(a, m) || Has(b, m)
  {
    hide Has;
    if !Has(a | b, m) {
      OrCleared(a, b, m);
    } else if !Has(a, m) && !Has(b, m) {
      OrClear(a, b, m);
    }
  }

  /** `0 - b`: all bits or none. */
  function Spread(b: bool): bv64 { if b then 0xFFFF_FFFF_FFFF_FFFF else 0 }

  lemma SpreadAt(b: bool, m: bv64)
    requires Single(m)
    ensures Has(Spread(b), m) <==> b
  {
  }

  /** A word with the bits of `m` made `b`. */
  function With(x: bv64, m: bv64, b: bool): bv64 { (x & !m) | (if b then m else 0) }

  function WithBit(x: bv64, k: nat, b: bool): bv64 { With(x, Mask(k), b) }

  lemma WithApart(x: bv64, m: bv64, n: bv64)
    requires m & n == 0
    ensures With(x, m, true) & n == x & n && With(x, m, false) & n == x & n
  {
  }

  lemma WithThere(x: bv64, m: bv64, b: bool, n: bv64)
    requires m & n == 0
    ensures Has(With(x, m, b), n) == Has(x, n)
  {
    hide With;
    WithApart(x, m, n);
    assert With(x, m, b) == if b then With(x, m, true) else With(x, m, false);
  }

  lemma WithHere(x: bv64, m: bv64, b: bool)
    requires m != 0
    ensures Has(With(x, m, b), m) == b
  {
  }

  lemma WithBitAt(x: bv64, k: nat, b: bool, j: nat)
    requires j < 64 && k < 64
    ensures BitAt(WithBit(x, k, b), j) == if j == k then b else BitAt(x, j)
  {
    hide Mask, Has, With;
    if j == k {
      MaskNotZero(k);
      WithHere(x, Mask(k), b);
    } else {
      MasksApart(j, k);
      WithThere(x, Mask(k), b, Mask(j));
    }
  }

  lemma MasksApart(j: nat, k: nat)
    requires j != k
    ensures Mask(k) & Mask(j) == 0
  {
    if j < k {
      MaskApart(j, k);
    } else {
      MaskApart(k, j);
    }
  }
}
