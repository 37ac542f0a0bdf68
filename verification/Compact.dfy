/** The compact form of 256-bit numbers, and the work that a block's target stands for. */
module Compact {
  import opened Powers
  import opened Limbs
  import opened BitOps
  import opened ArithUint

  const WIDTH := 8
  const SIGN := 0x80_0000
  const EXP := 0x100_0000

  function Mantissa(c: nat): nat { c % SIGN }

  function Exponent(c: nat): nat { c / EXP }

  predicate Signed(c: nat) { c / SIGN % 2 == 1 }

  /** The whole number that a compact form stands for, its sign aside. */
  function Meaning(c: nat): nat {
    var m, e := Mantissa(c), Exponent(c);
    if e <= 3 then m / Pow(256, 3 - e) else m * Pow(256, e - 3)
  }

  lemma {:induction false} PowBytes(n: nat)
    ensures Pow(256, n) == Pow(2, 8 * n)
  {
    if n > 0 {
      PowBytes(n - 1);
      assert Pow(2, 8) == 256 by { PowAdd(2, 4, 4); }
      PowAdd(2, 8, 8 * (n - 1));
    }
  }

  /** The limit of 256 bits. */
  lemma Limit()
    ensures Pow(BASE, WIDTH) == Pow(2, 256) == Pow(256, 32)
  {
    PowBase(WIDTH);
    PowBytes(32);
  }

  // ------------------------------------------------------------------
  // Overflow
  // ------------------------------------------------------------------

  predicate TooBig(nWord: nat, nSize: nat) {
    nWord != 0 && (nSize > 34 || (nWord > 0xff && nSize > 33) || (nWord > 0xffff && nSize > 32))
  }

  /** A number of the form m * 256^k reaches 256^n exactly when m reaches 256^(n - k). */
  lemma Reaches(m: nat, k: nat, n: nat)
    requires k <= n
    ensures m * Pow(256, k) >= Pow(256, n) <==> m >= Pow(256, n - k)
  {
    hide Pow;
    PowAdd(256, n - k, k);
    var p, q := Pow(256, k), Pow(256, n - k);
    if m >= q {
      MulLe(q, m, p);
    } else {
      MulLe(m + 1, q, p);
      SumTimes(m, 1, p);
    }
  }

  lemma SmallPowers()
    ensures Pow(256, 0) == 1 && Pow(256, 1) == 256 && Pow(256, 2) == 0x1_0000 && Pow(256, 3) == 0x100_0000
  {
  }

  lemma OverflowExactly(m: nat, e: nat)
    requires m < SIGN && e > 3
    ensures TooBig(m, e) <==> m * Pow(256, e - 3) >= Pow(256, 32)
  {
    hide Pow;
    SmallPowers();
    if e <= 35 {
      Reaches(m, e - 3, 32);
      if e < 33 {
        PowMono(256, 3, 35 - e);
      }
    } else {
      Reaches(m, 32, 32);
      PowMono(256, 32, e - 3);
      if m > 0 {
        MulLe(1, m, Pow(256, e - 3));
      }
    }
  }

  // ------------------------------------------------------------------
  // From a number to its compact form
  // ------------------------------------------------------------------

  /** The number of bytes of `x`. */
  function Bytes(x: nat): nat { if x == 0 then 0 else 1 + Bytes(x / 256) }

  lemma {:induction false} BytesBound(x: nat)
    ensures (x == 0 <==> Bytes(x) == 0) && x < Pow(256, Bytes(x)) && (x > 0 ==> Pow(256, Bytes(x) - 1) <= x)
  {
    if x > 0 {
      BytesBound(x / 256);
      if x < 256 {
        assert Bytes(x / 256) == 0 && Pow(256, 1) == 256;
      }
    }
  }

  lemma BytesIs(x: nat, n: nat)
    requires n > 0 && Pow(256, n - 1) <= x < Pow(256, n)
    ensures Bytes(x) == n
  {
    BytesBound(x);
    var k := Bytes(x);
    if k < n {
      PowMono(256, k, n - 1);
    } else if k > n {
      PowMono(256, n, k - 1);
    }
  }

  /** The three leading bytes. */
  function Leading(x: nat): nat {
    hide Pow, Bytes;
    var n := Bytes(x);
    if n <= 3 then x * Pow(256, 3 - n) else x / Pow(256, n - 3)
  }

  lemma LeadingBound(x: nat)
    ensures Leading(x) < EXP && (x > 0 ==> Leading(x) >= 0x1_0000)
  {
    hide Pow, Bytes;
    var n := Bytes(x);
    BytesBound(x);
    SmallPowers();
    if n <= 3 {
      Reaches(x, 3 - n, 3);
      if n > 0 {
        Reaches(x, 3 - n, 2);
      }
    } else {
      LeadingBig(x, n);
    }
  }

  lemma LeadingBig(x: nat, n: nat)
    requires n > 3 && Pow(256, n - 1) <= x < Pow(256, n)
    ensures 0x1_0000 <= x / Pow(256, n - 3) < EXP
  {
    hide Pow;
    SmallPowers();
    PowAdd(256, 3, n - 3);
    PowAdd(256, 2, n - 3);
    var p := Pow(256, n - 3);
    var q := x / p;
    assert x == q * p + x % p;
    if q < 0x1_0000 {
      MulLe(q + 1, 0x1_0000, p);
    } else if q >= EXP {
      MulLe(EXP, q, p);
    }
  }

  function CompactOf(x: nat): nat {
    var m, n := Leading(x), Bytes(x);
    if m >= SIGN then (n + 1) * EXP + m / 256 else n * EXP + m
  }

  lemma CompactParts(x: nat)
    ensures var m, n, c := Leading(x), Bytes(x), CompactOf(x);
            && Mantissa(c) == (if m >= SIGN then m / 256 else m)
            && Exponent(c) == (if m >= SIGN then n + 1 else n)
            && !Signed(c)
  {
    hide Leading, Bytes, Mantissa, Exponent, Signed;
    LeadingBound(x);
    var m, n := Leading(x), Bytes(x);
    if m >= SIGN {
      PartsOf(m / 256, n + 1);
    } else {
      PartsOf(m, n);
    }
  }

  lemma PartsOf(m: nat, n: nat)
    requires m < SIGN
    ensures var c := n * EXP + m; Mantissa(c) == m && Exponent(c) == n && !Signed(c)
  {
    DivModIs(n * EXP + m, n, m, EXP);
    DivModIs(n * EXP + m, 2 * n, m, SIGN);
  }

  // ------------------------------------------------------------------
  // Back again: never above, off by less than one part in 2^15, and stable
  // ------------------------------------------------------------------

  /** With at most three bytes nothing is lost unless all 24 bits are used. */
  lemma SmallExact(x: nat)
    requires Bytes(x) <= 2 || (Bytes(x) == 3 && x < SIGN)
    ensures Meaning(CompactOf(x)) == x
  {
    hide Pow, Bytes;
    BytesBound(x);
    SmallPowers();
    CompactParts(x);
  }

  /** The bytes that the compact form drops. */
  function DroppedBytes(x: nat): nat
    requires Bytes(x) >= 3
  {
    if Leading(x) >= SIGN then Bytes(x) - 2 else Bytes(x) - 3
  }

  lemma BigMeaning(x: nat)
    requires Bytes(x) > 3 || (Bytes(x) == 3 && x >= SIGN)
    ensures DroppedBytes(x) >= 1 && Mantissa(CompactOf(x)) == x / Pow(256, DroppedBytes(x)) >= 0x8000
    ensures Meaning(CompactOf(x)) == Mantissa(CompactOf(x)) * Pow(256, DroppedBytes(x))
  {
    hide Pow, Bytes;
    BytesBound(x);
    LeadingBound(x);
    SmallPowers();
    CompactParts(x);
    if Leading(x) >= SIGN {
      if Bytes(x) > 3 {
        DivTwice(x, Bytes(x) - 3);
      }
    }
  }

  lemma DivTwice(x: nat, k: nat)
    ensures x / Pow(256, k) / 256 == x / Pow(256, k + 1)
  {
    var p := Pow(256, k);
    var q, r := x / p, x % p;
    var q', r' := q / 256, q % 256;
    assert q == q' * 256 + r';
    assert x == (q' * 256 + r') * p + r;
    SumTimes(q' * 256, r', p);
    MulAssoc(q', 256, p);
    MulLe(r' + 1, 256, p);
    SumTimes(r', 1, p);
    DivModIs(x, q', r' * p + r, 256 * p);
  }

  /** The error is less than the last byte kept is worth. */
  lemma BigRounds(x: nat, k: nat)
    requires x / Pow(256, k) >= 0x8000
    ensures var y := (x / Pow(256, k)) * Pow(256, k); y <= x && (x - y) * 0x8000 < x
  {
    var p := Pow(256, k);
    var q, r := x / p, x % p;
    assert x == q * p + r;
    MulLe(0x8000, q, p);
  }

  lemma BigStable(x: nat)
    requires Bytes(x) > 3 || (Bytes(x) == 3 && x >= SIGN)
    ensures CompactOf(Meaning(CompactOf(x))) == CompactOf(x)
  {
    hide Pow, Bytes, Meaning;
    BytesBound(x);
    BigMeaning(x);
    LeadingBound(x);
    SmallPowers();
    CompactParts(x);
    var k, n, m := DroppedBytes(x), Bytes(x), Mantissa(CompactOf(x));
    var y, p := m * Pow(256, k), Pow(256, n - 3);
    SameBytes(m, k, n);
    if Leading(x) >= SIGN {
      ScaleDown(m, n);
      if n > 3 {
        DivModIs(y, m * 256, 0, p);
        MulBack(x, k);
      }
    } else {
      DivModIs(y, m, 0, p);
    }
  }

  lemma MulBack(x: nat, k: nat)
    ensures x / Pow(256, k) * Pow(256, k) <= x
  {
  }

  /** m * 256^(n - 2) has m * 256 before its last n - 3 bytes. */
  lemma ScaleDown(m: nat, n: nat)
    requires n >= 3
    ensures m * Pow(256, n - 2) == (m * 256) * Pow(256, n - 3)
  {
    MulAssoc(m, 256, Pow(256, n - 3));
  }

  /** A mantissa of two or three bytes before k bytes. */
  lemma SameBytes(m: nat, k: nat, n: nat)
    requires (k == n - 2 && 0x8000 <= m < 0x1_0000 && n >= 3) || (k == n - 3 && 0x1_0000 <= m < SIGN && n > 3)
    ensures Bytes(m * Pow(256, k)) == n
  {
    hide Pow, Bytes;
    SmallPowers();
    Reaches(m, k, n - 1);
    Reaches(m, k, n);
    BytesIs(m * Pow(256, k), n);
  }

  /** The compact form of a number never stands for more, is off by less than one part in 2^15, and is stable. */
  lemma CompactRounds(x: nat)
    ensures var y := Meaning(CompactOf(x));
            && y <= x && (x > 0 ==> (x - y) * 0x8000 < x)
            && CompactOf(y) == CompactOf(x)
  {
    hide Pow, Bytes, Meaning, CompactOf;
    if Bytes(x) <= 2 || (Bytes(x) == 3 && x < SIGN) {
      SmallExact(x);
    } else {
      BigMeaning(x);
      BigRounds(x, DroppedBytes(x));
      BigStable(x);
    }
  }

  // ------------------------------------------------------------------
  // The operations
  // ------------------------------------------------------------------

  method SetCompact(a: BaseUint, nCompact: Limb) returns (fNegative: bool, fOverflow: bool)
    requires a.pn.Length == WIDTH
    modifies a.pn
    ensures a.Value() == Meaning(nCompact) % Pow(2, 256)
    ensures fNegative <==> Signed(nCompact) && Meaning(nCompact) != 0
    ensures fOverflow <==> Meaning(nCompact) >= Pow(2, 256)
  {
    hide Pow, Val, Meaning, TooBig;
    Limit();
    var nSize, nWord := nCompact as nat / EXP, nCompact as nat % SIGN;
    MeaningIs(nCompact);
    if nSize <= 3 {
      SmallNeverOverflows(nWord / Pow(256, 3 - nSize), nSize);
      PowBytes(3 - nSize);
      nWord := nWord / Pow(2, 8 * (3 - nSize));
      a.AssignSmall(nWord);
      SmallMeaning(nCompact);
    } else {
      PowBytes(nSize - 3);
      a.AssignSmall(nWord);
      a.ShiftLeft(8 * (nSize - 3));
      OverflowExactly(nWord, nSize);
      ZeroProduct(nWord, Pow(256, nSize - 3));
    }
    fNegative := nWord != 0 && Signed(nCompact);
    fOverflow := TooBig(nWord, nSize);
  }

  lemma MeaningIs(c: nat)
    ensures var m, e := Mantissa(c), Exponent(c);
            Meaning(c) == if e <= 3 then m / Pow(256, 3 - e) else m * Pow(256, e - 3)
  {
    hide Pow;
  }

  lemma SmallNeverOverflows(nWord: nat, nSize: nat)
    requires nSize <= 3
    ensures !TooBig(nWord, nSize)
  {
  }

  lemma ZeroProduct(m: nat, p: nat)
    requires p > 0
    ensures m * p == 0 <==> m == 0
  {
  }

  lemma SmallMeaning(c: nat)
    requires Exponent(c) <= 3
    ensures Meaning(c) < SIGN < Pow(2, 256) && Meaning(c) % Pow(2, 256) == Meaning(c)
  {
    hide Pow;
    PowMono(256, 3, 32);
    SmallPowers();
    Limit();
    MulLe(1, Pow(256, 3 - Exponent(c)), Mantissa(c));
    QuotientSmall(Mantissa(c), Pow(256, 3 - Exponent(c)));
    DivModIs(Meaning(c), 0, Meaning(c), Pow(2, 256));
  }

  lemma QuotientSmall(x: nat, p: nat)
    requires p > 0
    ensures x / p <= x
  {
    var q := x / p;
    assert x == q * p + x % p;
    MulLe(1, p, q);
  }

  /** Bits to bytes. */
  lemma BytesOfBits(x: nat, b: nat)
    requires (b == 0 <==> x == 0) && (b > 0 ==> Pow(2, b - 1) <= x < Pow(2, b))
    ensures Bytes(x) == (b + 7) / 8
  {
    hide Pow;
    if b > 0 {
      var n := (b + 7) / 8;
      PowBytes(n);
      PowBytes(n - 1);
      PowMono(2, b, 8 * n);
      PowMono(2, 8 * (n - 1), b - 1);
      BytesIs(x, n);
    }
  }

  /** Setting a bit that is not set. */
  lemma {:induction false} OrMissing(x: nat, k: nat)
    requires !Bit(x, k)
    ensures Or(x, Pow(2, k)) == x + Pow(2, k)
  {
    hide Or;
    if k == 0 {
      OrEven(x / 2, 1);
      OrDisjoint(1, x / 2, 1);
    } else {
      var p := Pow(2, k - 1);
      HalfBit(x, k);
      OrMissing(x / 2, k - 1);
      OrEven(p, x);
    }
  }

  lemma HalfBit(x: nat, k: nat)
    requires k > 0
    ensures Bit(x / 2, k - 1) <==> Bit(x, k)
  {
    var p := Pow(2, k - 1);
    var h, q, r := x / 2, x / 2 / p, x / 2 % p;
    assert h == q * p + r;
    MulTwo(q, p);
    DivModIs(x, q, 2 * r + x % 2, 2 * p);
  }

  /** The three leading bytes, for a number of `nSize` bytes. */
  method GetLeading(a: BaseUint, nSize: nat) returns (m: nat)
    requires a.pn.Length == WIDTH && nSize == Bytes(a.Value())
    ensures m == Leading(a.Value())
  {
    hide Pow, Val, Bytes, Leading;
    ghost var x := a.Value();
    LeadingFits(x);
    if nSize <= 3 {
      m := a.GetLow64();
      PowBytes(3 - nSize);
      m := m * Pow(2, 8 * (3 - nSize)) % BASE;
    } else {
      var bn := new BaseUint.Copy(a);
      PowBytes(nSize - 3);
      bn.ShiftRight(8 * (nSize - 3));
      m := bn.GetLow64();
      m := m % BASE;
    }
  }

  /** Neither the low 64 bits nor the cut to 32 bits loses anything. */
  lemma LeadingFits(x: nat)
    ensures Bytes(x) <= 3 ==> x % (BASE * BASE) * Pow(256, 3 - Bytes(x)) % BASE == Leading(x)
    ensures Bytes(x) > 3 ==> x / Pow(256, Bytes(x) - 3) % (BASE * BASE) % BASE == Leading(x)
  {
    hide Pow, Bytes;
    LeadingBound(x);
    if Bytes(x) <= 3 {
      ShortLow(x, Bytes(x));
    }
  }

  method GetCompact(a: BaseUint, fNegative: bool) returns (nCompact: nat)
    requires a.pn.Length == WIDTH
    ensures nCompact < BASE
    ensures var c := CompactOf(a.Value()); nCompact == if fNegative && Mantissa(c) != 0 then c + SIGN else c
  {
    hide Pow, Val, Bytes, Or, Leading;
    var nBits := a.Bits();
    ghost var x := a.Value();
    BytesOfBits(x, nBits);
    LeadingBound(x);
    var nSize := (nBits + 7) / 8;
    nCompact := GetLeading(a, nSize);
    if nCompact / SIGN % 2 == 1 {
      nCompact := nCompact / 256;
      nSize := nSize + 1;
    }
    assert nCompact < SIGN && nSize < 256;
    CompactParts(x);
    Join(nCompact, nSize);
    nCompact := Or(nCompact, nSize * EXP);
    if fNegative && nCompact % SIGN != 0 {
      SignBit(nCompact);
      nCompact := Or(nCompact, SIGN);
    }
  }

  lemma Join(m: nat, n: nat)
    requires m < SIGN && n < 256
    ensures Or(m, n * EXP) == n * EXP + m < BASE
  {
    assert Pow(2, 24) == EXP by { PowBytes(3); SmallPowers(); }
    OrDisjoint(m, n, 24);
  }

  lemma SignBit(c: nat)
    requires !Signed(c)
    ensures Or(c, SIGN) == c + SIGN
  {
    assert Pow(2, 23) == SIGN by { PowBytes(3); SmallPowers(); }
    OrMissing(c, 23);
  }

  lemma ShortLow(x: nat, n: nat)
    requires Bytes(x) == n <= 3
    ensures x % (BASE * BASE) == x
  {
    hide Pow;
    BytesBound(x);
    PowMono(256, n, 3);
    SmallPowers();
  }

  // ------------------------------------------------------------------
  // The work of a block
  // ------------------------------------------------------------------

  /** The target is positive and below 2^256. */
  ghost predicate ValidTarget(nBits: nat) { !Signed(nBits) && 0 < Meaning(nBits) < Pow(2, 256) }

  /** A target leaves room for one more: it is small or a multiple of 256. */
  lemma TargetRoom(c: nat)
    requires Meaning(c) < Pow(2, 256)
    ensures Meaning(c) + 1 < Pow(2, 256)
  {
    hide Pow;
    Limit();
    if Exponent(c) <= 3 {
      SmallMeaning(c);
    } else {
      var k := Exponent(c) - 3;
      PowMultiple(k);
      PowMultiple(32);
      MultipleOf256(Mantissa(c), Pow(256, k));
    }
  }

  lemma PowMultiple(k: nat)
    requires k > 0
    ensures Pow(256, k) % 256 == 0
  {
    DivModIs(Pow(256, k), Pow(256, k - 1), 0, 256);
  }

  lemma MultipleOf256(m: nat, p: nat)
    requires p % 256 == 0
    ensures m * p % 256 == 0
  {
    var q := p / 256;
    MulAssoc(m, q, 256);
    DivModIs(m * p, m * q, 0, 256);
  }

  /** The quotient that fits: ~t / (t + 1) + 1 is 2^256 / (t + 1). */
  lemma ProofValue(t: nat, m: nat)
    requires 0 < t && t + 1 < m
    ensures (m - 1 - t) / (t + 1) + 1 == m / (t + 1) < m
  {
    var d := t + 1;
    var q, r := (m - d) / d, (m - d) % d;
    assert m - d == q * d + r;
    SumTimes(q, 1, d);
    DivModIs(m, q + 1, r, d);
    MulLe(2, d, q + 1);
  }

  lemma ProofRoom(t: nat, m: nat)
    requires 0 < t && t + 1 < m
    ensures (m - 1 - t) / (t + 1) + 1 == m / (t + 1)
    ensures (t + 1) % m == t + 1 && (m / (t + 1)) % m == m / (t + 1)
  {
    ProofValue(t, m);
    DivModIs(t + 1, 0, t + 1, m);
    DivModIs(m / (t + 1), 0, m / (t + 1), m);
  }

  method GetBlockProof(nBits: Limb) returns (r: BaseUint)
    ensures fresh(r) && r.pn.Length == WIDTH
    ensures r.Value() == if ValidTarget(nBits) then Pow(2, 256) / (Meaning(nBits) + 1) else 0
  {
    hide Pow, Val, Meaning;
    Limit();
    var bnTarget := new BaseUint(WIDTH);
    var fNegative, fOverflow := SetCompact(bnTarget, nBits);
    var zero := bnTarget.EqualTo(0);
    ghost var t, m := Meaning(nBits), Pow(2, 256);
    if fNegative || fOverflow || zero {
      if !fOverflow {
        DivModIs(t, 0, t, m);
      }
      r := new BaseUint(WIDTH);
      return;
    }
    DivModIs(t, 0, t, m);
    TargetRoom(nBits);
    ProofRoom(t, m);
    r := bnTarget.Not();
    var one := new BaseUint(WIDTH);
    one.AssignSmall(1);
    bnTarget.Add(one);
    var status := r.Divide(bnTarget);
    assert status == Done;
    r.Add(one);
  }
}
