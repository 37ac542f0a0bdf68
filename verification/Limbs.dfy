/** Numbers as sequences of 32-bit limbs, least significant first, and the arithmetic facts about them. */
module Limbs {
  import opened Powers

  const BASE: nat := 0x1_0000_0000

  type Limb = x: nat | x < BASE

  /** The number that the first `n` limbs make. */
  ghost function Val(s: seq<Limb>, n: nat): nat
    requires n <= |s|
  {
    if n == 0 then 0 else Val(s, n - 1) + s[n - 1] * Pow(BASE, n - 1)
  }

  lemma {:induction false} ValBound(s: seq<Limb>, n: nat)
    requires n <= |s|
    ensures Val(s, n) < Pow(BASE, n)
  {
    if n > 0 {
      ValBound(s, n - 1);
      var x: nat, p := s[n - 1], Pow(BASE, n - 1);
      MulLe(x + 1, BASE, p);
      assert (x + 1) * p == x * p + p;
    }
  }

  lemma ValNext(s: seq<Limb>, n: nat)
    requires n < |s|
    ensures Val(s, n + 1) == Val(s, n) + s[n] as nat * Pow(BASE, n)
  {
  }

  lemma ValNone(s: seq<Limb>)
    ensures Val(s, 0) == 0
  {
  }

  lemma {:induction false} ValSame(s: seq<Limb>, t: seq<Limb>, n: nat)
    requires n <= |s| && n <= |t| && forall i :: 0 <= i < n ==> s[i] == t[i]
    ensures Val(s, n) == Val(t, n)
  {
    if n > 0 {
      ValSame(s, t, n - 1);
    }
  }

  lemma {:induction false} ValZero(s: seq<Limb>, k: nat, n: nat)
    requires k <= n <= |s| && forall i :: k <= i < n ==> s[i] == 0
    ensures Val(s, n) == Val(s, k)
  {
    if k < n {
      ValZero(s, k, n - 1);
    }
  }

  lemma AddProduct(q: nat, x: nat, y: nat, z: nat)
    ensures (q + x * y) * z == q * z + x * (y * z)
  {
    MulAssoc(x, y, z);
  }

  /** The limbs from `k` on contribute a multiple of BASE^k. */
  lemma {:induction false} ValTail(s: seq<Limb>, k: nat, n: nat) returns (q: nat)
    requires k <= n <= |s|
    ensures Val(s, n) == Val(s, k) + q * Pow(BASE, k)
  {
    if k == n {
      q := 0;
    } else {
      var q1 := ValTail(s, k, n - 1);
      PowAdd(BASE, n - 1 - k, k);
      var x: nat, y, z := s[n - 1], Pow(BASE, n - 1 - k), Pow(BASE, k);
      q := q1 + x * y;
      AddProduct(q1, x, y, z);
    }
  }

  /** One step of a carry loop. */
  lemma CarryStep(v: nat, sum: nat, p: nat, x: nat, carry: nat, r: nat, carry': nat)
    requires v + carry * p == sum && r + carry' * BASE == x + carry
    ensures (v + r * p) + carry' * (BASE * p) == sum + x * p
  {
    MulAssoc(carry', BASE, p);
    assert (r + carry' * BASE) * p == r * p + (carry' * BASE) * p;
    assert (x + carry) * p == x * p + carry * p;
  }

  /** Storing the low limb of `x + carry` at `i` and carrying the rest on. */
  lemma LimbStep(s: seq<Limb>, t: seq<Limb>, i: nat, carry: nat, sum: nat, x: nat)
    requires i < |s| == |t| && (forall j :: 0 <= j < i ==> t[j] == s[j]) && t[i] == (x + carry) % BASE
    requires Val(s, i) + carry * Pow(BASE, i) == sum
    ensures Val(t, i + 1) + ((x + carry) / BASE) * Pow(BASE, i + 1) == sum + x * Pow(BASE, i)
  {
    ValSame(s, t, i);
    CarryStep(Val(s, i), sum, Pow(BASE, i), x, carry, (x + carry) % BASE, (x + carry) / BASE);
  }

  /** Numbers compare as their highest different limbs do. */
  lemma {:induction false} CompareAt(s: seq<Limb>, t: seq<Limb>, i: nat, n: nat)
    requires i < n <= |s| == |t| && s[i] < t[i] && forall j :: i < j < n ==> s[j] == t[j]
    ensures Val(s, n) < Val(t, n)
  {
    if n == i + 1 {
      ValBound(s, i);
      var x: nat, y: nat, p := s[i], t[i], Pow(BASE, i);
      MulLe(x + 1, y, p);
      assert (x + 1) * p == x * p + p;
    } else {
      CompareAt(s, t, i, n - 1);
    }
  }

  lemma {:induction false} ValUpdate(s: seq<Limb>, t: seq<Limb>, i: nat, d: nat, n: nat)
    requires i < n <= |s| == |t| && t[i] as nat == s[i] as nat + d && forall j :: 0 <= j < n && j != i ==> t[j] == s[j]
    ensures Val(t, n) == Val(s, n) + d * Pow(BASE, i)
  {
    if n == i + 1 {
      ValSame(s, t, i);
      var x: nat, p := s[i], Pow(BASE, i);
      assert (x + d) * p == x * p + d * p;
    } else {
      ValUpdate(s, t, i, d, n - 1);
    }
  }

  /** The highest limb that is not zero decides the number of bits. */
  lemma TopLimb(s: seq<Limb>, pos: nat, k: nat)
    requires pos < |s| && (forall j :: pos < j < |s| ==> s[j] == 0) && Pow(2, k) <= s[pos] < Pow(2, k + 1)
    ensures Pow(2, 32 * pos + k) <= Val(s, |s|) < Pow(2, 32 * pos + k + 1)
  {
    hide Pow, Val;
    ValZero(s, pos + 1, |s|);
    ValNext(s, pos);
    ValBound(s, pos);
    PowBase(pos);
    PowAdd(2, 32 * pos, k);
    PowAdd(2, 32 * pos, k + 1);
    TopBounds(Val(s, pos), s[pos], Pow(BASE, pos), Pow(2, k), Pow(2, k + 1));
  }

  lemma TopBounds(v: nat, x: nat, p: nat, lo: nat, hi: nat)
    requires v < p && lo <= x < hi
    ensures p * lo <= v + x * p < p * hi
  {
    MulLe(lo, x, p);
    MulLe(x + 1, hi, p);
    assert (x + 1) * p == x * p + p;
  }

  lemma Pow2Base()
    ensures Pow(2, 32) == BASE
  {
    assert Pow(2, 4) == 16;
    PowAdd(2, 4, 4);
    PowAdd(2, 8, 8);
    PowAdd(2, 16, 16);
  }

  lemma {:induction false} PowBase(n: nat)
    ensures Pow(BASE, n) == Pow(2, 32 * n)
  {
    if n > 0 {
      PowBase(n - 1);
      Pow2Base();
      PowAdd(2, 32, 32 * (n - 1));
    }
  }

  // ------------------------------------------------------------------
  // Scaling a 32-bit number down to a range
  // ------------------------------------------------------------------

  function Scaled(h: nat, size: nat): (r: nat)
    requires h < BASE
    ensures size > 0 ==> r < size
  {
    ScaledBelow(h, size);
    h * size / BASE
  }

  lemma ScaledBelow(h: nat, size: nat)
    requires h < BASE
    ensures size > 0 ==> h * size / BASE < size
  {
    if size > 0 {
      MulLe(h + 1, BASE, size);
      assert (h + 1) * size == h * size + size;
      QuotientBelow(h * size / BASE, size - 1, BASE, h * size);
    }
  }

  /** The least number that is scaled to `r`. */
  function FirstScaled(r: nat, size: nat): nat
    requires size > 0
  {
    (r * BASE + (size - 1)) / size
  }

  /** The least multiple of `size` that is not below `a`. */
  lemma RoundUp(a: nat, size: nat, h: nat)
    requires size > 0
    ensures (a + (size - 1)) / size <= h <==> a <= h * size
  {
    var q, m := DivMod(a + (size - 1), size);
    if q <= h {
      MulLe(q, h, size);
    } else {
      MulLe(h + 1, q, size);
      SumTimes(h, 1, size);
    }
  }

  lemma ScaledExactly(h: nat, size: nat, r: nat)
    requires h < BASE && size > 0
    ensures Scaled(h, size) == r <==> FirstScaled(r, size) <= h < FirstScaled(r + 1, size)
  {
    RoundUp(r * BASE, size, h);
    RoundUp((r + 1) * BASE, size, h);
    assert Scaled(h, size) == r <==> r * BASE <= h * size < (r + 1) * BASE;
  }

  lemma FirstNext(r: nat, size: nat)
    requires size > 0
    ensures BASE / size <= FirstScaled(r + 1, size) - FirstScaled(r, size) <= BASE / size + 1
  {
    var a, b := DivMod(r * BASE + (size - 1), size);
    var q, m := DivMod(BASE, size);
    SumTimes(a, q, size);
    SumTimes(a + q, 1, size);
    if b + m < size {
      DivModIs((r + 1) * BASE + (size - 1), a + q, b + m, size);
    } else {
      DivModIs((r + 1) * BASE + (size - 1), a + q + 1, b + m - size, size);
    }
  }

  lemma LastScaled(r: nat, size: nat)
    requires r < size
    ensures FirstScaled(r + 1, size) <= BASE
  {
    RoundUp((r + 1) * BASE, size, BASE);
    MulLe(r + 1, size, BASE);
  }

  ghost function Range(lo: nat, hi: nat): (s: set<nat>)
    requires lo <= hi
    ensures |s| == hi - lo && forall h: nat :: h in s <==> lo <= h < hi
  {
    if lo == hi then {} else Range(lo, hi - 1) + {hi - 1}
  }

  /** Each of the `size` results comes from equally many 32-bit numbers, give or take one. */
  lemma ScaledEven(size: nat, r: nat)
    requires r < size
    ensures var hs := set h: nat | h < BASE && Scaled(h, size) == r; BASE / size <= |hs| <= BASE / size + 1
  {
    hide Scaled, FirstScaled;
    var hs := set h: nat | h < BASE && Scaled(h, size) == r;
    var lo, hi := FirstScaled(r, size), FirstScaled(r + 1, size);
    FirstNext(r, size);
    LastScaled(r, size);
    forall h: nat ensures h in hs <==> lo <= h < hi {
      if h < BASE {
        ScaledExactly(h, size, r);
      }
    }
    assert hs == Range(lo, hi);
  }
}
