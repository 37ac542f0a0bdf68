/**
 Unsigned big integers of any fixed width: an array of 32-bit limbs that the
 operators rewrite in place, each proved exact modulo 2^(32 * width).
 */
module ArithUint {
  import opened Powers
  import opened Limbs
  import opened BitOps
  import opened LimbShift

  datatype Status = Done | DivisionByZero

  /** A sum of products never leaves 64 bits. */
  lemma Fits64(carry: nat, a: nat, x: nat, y: nat)
    requires carry < BASE && a < BASE && x < BASE && y < BASE
    ensures carry + a + x * y < BASE * BASE
    ensures (carry + a + x * y) / BASE < BASE
  {
    MulLe(x, BASE - 1, y);
    assert x * y <= (BASE - 1) * (BASE - 1);
  }

  function Term(a: Limb, x: Limb, y: Limb): nat { a as nat + x as nat * y as nat }

  lemma TermFits(carry: nat, a: Limb, x: Limb, y: Limb)
    requires carry < BASE
    ensures carry + Term(a, x, y) < BASE * BASE && (carry + Term(a, x, y)) / BASE < BASE
  {
    Fits64(carry, a, x, y);
  }

  lemma ProductNext(b: nat, v: nat, x: nat, p: nat)
    ensures b * (v + x * p) == b * v + (b * x) * p
  {
    MulAssoc(b, x, p);
  }

  class BaseUint {
    const pn: array<Limb>

    ghost function Value(): nat
      reads pn
    {
      Val(pn[..], pn.Length)
    }

    ghost function Modulus(): nat { Pow(BASE, pn.Length) }

    /** A number of `width` limbs that is zero. */
    constructor (width: nat)
      ensures fresh(pn) && pn.Length == width && Value() == 0 && forall i :: 0 <= i < width ==> pn[i] == 0
    {
      pn := new Limb[width](_ => 0);
      new;
      ValZero(pn[..], 0, width);
    }

    constructor Copy(b: BaseUint)
      ensures fresh(pn) && pn[..] == b.pn[..] && Value() == b.Value()
    {
      pn := new Limb[b.pn.Length](i requires 0 <= i < b.pn.Length reads b.pn => b.pn[i]);
    }

    method Assign(b: BaseUint)
      requires b.pn.Length == pn.Length
      modifies pn
      ensures pn[..] == old(b.pn[..]) && Value() == old(b.Value())
    {
      ghost var b0 := b.pn[..];
      for i := 0 to pn.Length
        invariant forall j :: 0 <= j < i ==> pn[j] == b0[j]
        invariant forall j :: i <= j < pn.Length ==> b.pn[j] == b0[j]
      {
        pn[i] := b.pn[i];
      }
      assert pn[..] == b0;
    }

    /** `*this = b` for a 64-bit `b` */
    method AssignSmall(b: nat)
      requires b < BASE * BASE && pn.Length >= 2
      modifies pn
      ensures Value() == b
    {
      pn[0], pn[1] := b % BASE, b / BASE;
      for i := 2 to pn.Length
        invariant pn[0] == b % BASE && pn[1] == b / BASE && forall j :: 2 <= j < i ==> pn[j] == 0
      {
        pn[i] := 0;
      }
      ValZero(pn[..], 2, pn.Length);
      LowTwo(pn[..]);
    }

    method GetLow64() returns (r: nat)
      requires pn.Length >= 2
      ensures r == Value() % (BASE * BASE)
    {
      hide Val, Pow, Or;
      Pow2Base();
      OrDisjoint(pn[0], pn[1], 32);
      r := Or(pn[0], pn[1] as nat * BASE);
      ghost var q := ValTail(pn[..], 2, pn.Length);
      LowTwo(pn[..]);
      DivModIs(Value(), q, r, BASE * BASE);
    }

    method EqualTo(b: nat) returns (r: bool)
      requires b < BASE * BASE && pn.Length >= 2
      ensures r <==> Value() == b
    {
      for i := pn.Length downto 2
        invariant forall j :: i <= j < pn.Length ==> pn[j] == 0
      {
        if pn[i] != 0 {
          HighLimb(pn[..], i);
          return false;
        }
      }
      ValZero(pn[..], 2, pn.Length);
      LowTwo(pn[..]);
      return pn[1] == b / BASE && pn[0] == b % BASE;
    }

    /** `*this += b` */
    method Add(b: BaseUint)
      requires b.pn.Length == pn.Length
      modifies pn
      ensures Value() == (old(Value()) + old(b.Value())) % Modulus()
    {
      ghost var a0, b0 := pn[..], b.pn[..];
      var carry: nat := 0;
      for i := 0 to pn.Length
        invariant carry <= 1 && Val(pn[..], i) + carry * Pow(BASE, i) == Val(a0, i) + Val(b0, i)
        invariant forall j :: i <= j < pn.Length ==> pn[j] == a0[j] && b.pn[j] == b0[j]
      {
        var n: nat := carry + pn[i] as nat + b.pn[i] as nat;
        ghost var s := pn[..];
        pn[i] := n % BASE;
        LimbStep(s, pn[..], i, carry, Val(a0, i) + Val(b0, i), a0[i] as nat + b0[i] as nat);
        SumTimes(a0[i], b0[i], Pow(BASE, i));
        carry := n / BASE;
      }
      ValBound(pn[..], pn.Length);
      DivModIs(Val(a0, pn.Length) + Val(b0, pn.Length), carry, Value(), Modulus());
    }

    /** `~*this` */
    method Not() returns (ret: BaseUint)
      ensures fresh(ret) && fresh(ret.pn) && ret.pn.Length == pn.Length
      ensures ret.Value() == Modulus() - 1 - Value()
    {
      hide Val, Pow;
      ret := new BaseUint(pn.Length);
      ValNone(ret.pn[..]);
      ValNone(pn[..]);
      PowZero(BASE);
      for i := 0 to pn.Length
        invariant Val(ret.pn[..], i) + Val(pn[..], i) == Pow(BASE, i) - 1
      {
        ghost var s := ret.pn[..];
        ret.pn[i] := BASE - 1 - pn[i];
        ValSame(s, ret.pn[..], i);
        LimbFlipped(pn[..], ret.pn[..], i);
      }
    }

    /** `++*this` */
    method Increment()
      modifies pn
      ensures Value() == (old(Value()) + 1) % Modulus()
    {
      ghost var a0, w := pn[..], pn.Length;
      var i := 0;
      while i < pn.Length
        invariant 0 <= i <= w && (forall j :: 0 <= j < i ==> pn[j] == 0 && a0[j] == BASE - 1)
        invariant forall j :: i <= j < w ==> pn[j] == a0[j]
      {
        pn[i] := (pn[i] as nat + 1) % BASE;
        if pn[i] != 0 {
          AllOnes(a0, i);
          ValZero(pn[..], 0, i);
          OneMore(a0, pn[..], i, w);
          ValBound(pn[..], w);
          DivModIs(Val(a0, w) + 1, 0, Value(), Modulus());
          return;
        }
        i := i + 1;
      }
      AllOnes(a0, w);
      ValZero(pn[..], 0, w);
      DivModIs(Val(a0, w) + 1, 1, 0, Modulus());
    }

    /** `-*this` */
    method Negate() returns (ret: BaseUint)
      ensures fresh(ret) && fresh(ret.pn) && ret.pn.Length == pn.Length
      ensures ret.Value() == (Modulus() - Value()) % Modulus()
    {
      ret := Not();
      ret.Increment();
    }

    /** `*this -= b` */
    method Subtract(b: BaseUint)
      requires b.pn.Length == pn.Length
      modifies pn
      ensures Value() == (old(Value()) + Modulus() - old(b.Value())) % Modulus()
    {
      var minus := b.Negate();
      ValBound(pn[..], pn.Length);
      ValBound(b.pn[..], pn.Length);
      AddNegated(Value(), b.Value(), Modulus());
      Add(minus);
    }

    /** `--*this` */
    method Decrement()
      modifies pn
      ensures Value() == (old(Value()) + Modulus() - 1) % Modulus()
    {
      ghost var a0, w := pn[..], pn.Length;
      var i := 0;
      while i < pn.Length
        invariant 0 <= i <= w && (forall j :: 0 <= j < i ==> pn[j] == BASE - 1 && a0[j] == 0)
        invariant forall j :: i <= j < w ==> pn[j] == a0[j]
      {
        pn[i] := if pn[i] == 0 then BASE - 1 else pn[i] - 1;
        if pn[i] != BASE - 1 {
          AllOnes(pn[..], i);
          ValZero(a0, 0, i);
          OneMore(pn[..], a0, i, w);
          ValBound(pn[..], w);
          DivModIs(Val(a0, w) + Modulus() - 1, 1, Value(), Modulus());
          return;
        }
        i := i + 1;
      }
      AllOnes(pn[..], w);
      ValZero(a0, 0, w);
      DivModIs(Modulus() - 1, 0, Value(), Modulus());
    }

    /** `*this *= b32` */
    method MultiplySmall(b32: Limb)
      modifies pn
      ensures Value() == (b32 * old(Value())) % Modulus()
    {
      hide Val, Pow, Term;
      ghost var a0, w := pn[..], pn.Length;
      ValNone(a0);
      var carry: nat := 0;
      for i := 0 to pn.Length
        invariant carry < BASE && Val(pn[..], i) + carry * Pow(BASE, i) == b32 * Val(a0, i)
        invariant forall j :: i <= j < w ==> pn[j] == a0[j]
      {
        TermFits(carry, 0, b32, pn[i]);
        var n: nat := carry + Term(0, b32, pn[i]);
        ghost var s := pn[..];
        pn[i] := n % BASE;
        SmallStep(s, pn[..], a0, b32, i, carry);
        carry := n / BASE;
      }
      ValBound(pn[..], w);
      DivModIs(b32 * Val(a0, w), carry, Value(), Modulus());
    }

    /** The inner loop of the product: adds limb `j` of `x` times `b` to this number, from limb `j` on.
        `lost` is what falls off the top. */
    method AddRow(x: Limb, b: BaseUint, j: nat) returns (ghost lost: nat)
      requires j <= pn.Length == b.pn.Length && b.pn != pn
      modifies pn
      ensures Value() + lost * Modulus() == old(Value()) + (x * b.Value()) * Pow(BASE, j)
    {
      hide Val, Pow, RowSum, Term;
      ghost var a0, b0, w := pn[..], b.pn[..], pn.Length;
      RowStart(a0, b0, x, j);
      var carry: nat := 0;
      for i := 0 to pn.Length - j
        invariant carry < BASE && b.pn[..] == b0
        invariant Val(pn[..], j + i) + carry * Pow(BASE, j + i) == RowSum(a0, b0, x, i, j)
        invariant forall k :: j + i <= k < w ==> pn[k] == a0[k]
      {
        TermFits(carry, pn[i + j], x, b.pn[i]);
        var n := carry + Term(pn[i + j], x, b.pn[i]);
        ghost var s := pn[..];
        pn[i + j] := n % BASE;
        LimbStep(s, pn[..], j + i, carry, RowSum(a0, b0, x, i, j), Term(a0[i + j], x, b0[i]));
        RowNext(a0, b0, x, i, j);
        carry := n / BASE;
      }
      lost := RowLost(a0, b0, x, w, j, carry);
    }

    /** `*this *= b` */
    method Multiply(b: BaseUint)
      requires b.pn.Length == pn.Length
      modifies pn
      ensures Value() == (old(Value()) * old(b.Value())) % Modulus()
    {
      hide Val, Pow;
      ghost var p0, w, vb := pn[..], pn.Length, b.Value();
      ValNone(p0);
      var a := new BaseUint(pn.Length);
      ghost var lost: nat := 0;
      for j := 0 to pn.Length
        invariant pn[..] == p0 && b.Value() == vb
        invariant a.Value() + lost * Modulus() == Val(p0, j) * vb
      {
        ghost var before := a.Value();
        ghost var more := a.AddRow(pn[j], b, j);
        RowAdded(p0, j, vb);
        SumTimes(lost, more, Modulus());
        lost := lost + more;
      }
      ValBound(a.pn[..], w);
      DivModIs(Val(p0, w) * vb, lost, a.Value(), Modulus());
      Assign(a);
    }

    method CompareTo(b: BaseUint) returns (r: int)
      requires b.pn.Length == pn.Length
      ensures -1 <= r <= 1
      ensures (r < 0 <==> Value() < b.Value()) && (r == 0 <==> Value() == b.Value()) && (r > 0 <==> Value() > b.Value())
    {
      hide Val;
      for i := pn.Length downto 0
        invariant forall j :: i <= j < pn.Length ==> pn[j] == b.pn[j]
      {
        if pn[i] < b.pn[i] {
          CompareAt(pn[..], b.pn[..], i, pn.Length);
          return -1;
        }
        if pn[i] > b.pn[i] {
          CompareAt(b.pn[..], pn[..], i, pn.Length);
          return 1;
        }
      }
      ValSame(pn[..], b.pn[..], pn.Length);
      return 0;
    }

    /** The position of the highest bit set plus one, or zero. */
    method Bits() returns (n: nat)
      ensures n == 0 <==> Value() == 0
      ensures n > 0 ==> Pow(2, n - 1) <= Value() < Pow(2, n)
      ensures Value() < Pow(2, n) && n <= 32 * pn.Length
    {
      hide Val, Pow;
      PowZero(2);
      for pos := pn.Length downto 0
        invariant forall j :: pos <= j < pn.Length ==> pn[j] == 0
      {
        if pn[pos] != 0 {
          Pow2Base();
          var nbits := 31;
          while nbits > 0
            invariant 0 <= nbits <= 31 && pn[pos] < Pow(2, nbits + 1)
          {
            TopBit(pn[pos], nbits);
            if Bit(pn[pos], nbits) {
              TopLimb(pn[..], pos, nbits);
              return 32 * pos + nbits + 1;
            }
            nbits := nbits - 1;
          }
          TopLimb(pn[..], pos, 0);
          return 32 * pos + 1;
        }
      }
      ValZero(pn[..], 0, pn.Length);
      ValNone(pn[..]);
      return 0;
    }

    method Clear()
      modifies pn
      ensures Value() == 0 && forall i :: 0 <= i < pn.Length ==> pn[i] == 0
    {
      for i := 0 to pn.Length
        invariant forall j :: 0 <= j < i ==> pn[j] == 0
      {
        pn[i] := 0;
      }
      ValZero(pn[..], 0, pn.Length);
    }

    /** `*this <<= shift` */
    method ShiftLeft(shift: nat)
      modifies pn
      ensures Value() == (old(Value()) * Pow(2, shift)) % Modulus()
    {
      hide Val, Pow, Or, Hi, Lo, Shifted;
      var a := new BaseUint.Copy(this);
      ghost var a0, w := a.pn[..], pn.Length;
      Clear();
      var k, s := shift / 32, shift % 32;
      ShlStart(a0, pn[..], k, s);
      ghost var top: nat := 0;
      for i := 0 to pn.Length
        invariant a.pn[..] == a0
        invariant i + k <= w ==> Shifted(a0, pn[..], i, k, s)
        invariant k < w <= i + k ==> Val(pn[..], w) + top * Modulus() == Val(a0, w - k) * Pow(2, 32 * k + s)
        invariant k >= w ==> Value() == 0
      {
        ShlBounds(a0, pn[..], i, k, s);
        ghost var t := pn[..];
        if i + k + 1 < pn.Length && s != 0 {
          pn[i + k + 1] := Or(pn[i + k + 1], Hi(a.pn[i], s));
        }
        if i + k < pn.Length {
          pn[i + k] := Or(pn[i + k], Lo(a.pn[i], s));
          ShlStep(a0, t, pn[..], i, k, s);
          top := if i + k + 1 == pn.Length then Hi(a0[i], s) else top;
        }
      }
      if k < w {
        ShlEnd(a0, pn[..], k, s, top);
      } else {
        ShlAll(a0, k, s);
      }
    }

    /** `*this >>= shift` */
    method ShiftRight(shift: nat)
      modifies pn
      ensures Value() == old(Value()) / Pow(2, shift)
    {
      hide Val, Pow, Or, Hi, Lo;
      var a := new BaseUint.Copy(this);
      ghost var a0, w := a.pn[..], pn.Length;
      Clear();
      var k, s := shift / 32, shift % 32;
      for i := 0 to pn.Length
        invariant a.pn[..] == a0 && ShiftedDown(a0, pn[..], i, k, s)
      {
        ShrOr(if i == 0 then 0 else a0[i - 1], a0[i], s);
        ghost var t := pn[..];
        if i - k - 1 >= 0 && s != 0 {
          pn[i - k - 1] := Or(pn[i - k - 1], Lo(a.pn[i], 32 - s));
        }
        if i - k >= 0 {
          pn[i - k] := Or(pn[i - k], a.pn[i] / Pow(2, s));
          if i == k {
            ShrFirst(a0, t, pn[..], k, s);
          } else {
            ShrNext(a0, t, pn[..], i, k, s);
          }
        }
      }
      ShrEnd(a0, pn[..], k, s);
    }

    /** `pn[n / 32] |= 1 << (n & 31)`, where no bit up to `n` is set. */
    method SetQuotientBit(n: nat)
      requires n / 32 < pn.Length && ClearBelow(pn[..], n + 1)
      modifies pn
      ensures Value() == old(Value()) + Pow(2, n) && ClearBelow(pn[..], n)
    {
      hide Val, Pow, Or, ClearBelow;
      ghost var t := pn[..];
      SetBit(t, n);
      pn[n / 32] := Or(pn[n / 32], Pow(2, n % 32));
      BitValue(t, pn[..], n);
      StillClear(t, pn[..], n);
    }

    /** One turn of the division: the bit `shift` of the quotient. */
    method DivideTurn(num: BaseUint, div: BaseUint, shift: nat, ghost d: nat)
      requires pn != div.pn && pn != num.pn && div.pn != num.pn && num.pn.Length == div.pn.Length == pn.Length
      requires shift < 32 * pn.Length && div.Value() == d * Pow(2, shift) && num.Value() < d * Pow(2, shift + 1)
      requires ClearBelow(pn[..], shift + 1)
      modifies pn, num.pn, div.pn
      ensures Value() * d + num.Value() == old(Value()) * d + old(num.Value())
      ensures num.Value() < d * Pow(2, shift) && ClearBelow(pn[..], shift)
      ensures shift > 0 ==> div.Value() == d * Pow(2, shift - 1)
    {
      hide Val, Pow, ClearBelow;
      ghost var q := Value();
      Halved(d, shift);
      var c := num.CompareTo(div);
      if c >= 0 {
        SubtractExact(num, div);
        SetQuotientBit(shift);
        QuotientStep(q, d, Pow(2, shift));
      } else {
        StillClear(pn[..], pn[..], shift);
      }
      div.ShiftRight(1);
    }

    /** The loop of the division: one quotient bit a turn. */
    method DivideTurns(num: BaseUint, div: BaseUint, top: nat, ghost n: nat, ghost d: nat)
      requires pn != div.pn && pn != num.pn && div.pn != num.pn && num.pn.Length == div.pn.Length == pn.Length
      requires top < 32 * pn.Length && div.Value() == d * Pow(2, top) && num.Value() == n < d * Pow(2, top + 1)
      requires Value() == 0 && ClearBelow(pn[..], top + 1)
      modifies pn, num.pn, div.pn
      ensures d > 0 && Value() == n / d
    {
      hide Val, Pow, ClearBelow;
      var shift: int := top;
      while shift >= 0
        invariant -1 <= shift < 32 * pn.Length
        invariant shift >= 0 ==> div.Value() == d * Pow(2, shift)
        invariant num.Value() < d * Pow(2, shift + 1) && ClearBelow(pn[..], shift + 1)
        invariant Value() * d + num.Value() == n
      {
        DivideTurn(num, div, shift, d);
        shift := shift - 1;
      }
      PowZero(2);
      DivModIs(n, Value(), num.Value(), d);
    }

    /** `*this /= b`: shift and subtract. */
    method Divide(b: BaseUint) returns (status: Status)
      requires b.pn.Length == pn.Length
      modifies pn
      ensures status == DivisionByZero <==> old(b.Value()) == 0
      ensures Value() == if status == Done then old(Value()) / old(b.Value()) else 0
    {
      hide Val, Pow, ClearBelow;
      ghost var n0, d0 := Value(), b.Value();
      var div := new BaseUint.Copy(b);
      var num := new BaseUint.Copy(this);
      Clear();
      ValZeroed(pn[..]);
      var num_bits := num.Bits();
      var div_bits := div.Bits();
      if div_bits == 0 {
        return DivisionByZero;
      }
      if div_bits > num_bits {
        PowMono(2, num_bits, div_bits - 1);
        DivModIs(n0, 0, n0, d0);
        return Done;
      }
      var shift: int := num_bits - div_bits;
      Aligned(n0, d0, num_bits, div_bits, pn.Length);
      div.ShiftLeft(shift);
      ZeroClear(pn[..], shift + 1);
      DivideTurns(num, div, shift, n0, d0);
      return Done;
    }
  }

  method SubtractExact(num: BaseUint, div: BaseUint)
    requires num.pn.Length == div.pn.Length && div.Value() <= num.Value()
    modifies num.pn
    ensures num.Value() == old(num.Value()) - old(div.Value())
  {
    hide Val, Pow;
    ValBound(num.pn[..], num.pn.Length);
    ghost var x, m := num.Value() - div.Value(), num.Modulus();
    DivModIs(x + m, 1, x, m);
    num.Subtract(div);
  }

  lemma ValZeroed(s: seq<Limb>)
    requires forall i :: 0 <= i < |s| ==> s[i] == 0
    ensures Val(s, |s|) == 0
  {
    ValZero(s, 0, |s|);
  }

  /** The divisor can be shifted up to the dividend without overflow, and twice that exceeds the dividend. */
  lemma Aligned(n: nat, d: nat, nb: nat, db: nat, w: nat)
    requires 0 < db <= nb <= 32 * w && n < Pow(2, nb) && Pow(2, db - 1) <= d < Pow(2, db)
    ensures (d * Pow(2, nb - db)) % Pow(BASE, w) == d * Pow(2, nb - db)
    ensures n < d * Pow(2, nb - db + 1)
  {
    hide Pow;
    PowBase(w);
    PowMono(2, nb, 32 * w);
    PowAdd(2, db, nb - db);
    PowAdd(2, db - 1, nb - db + 1);
    var s, t := Pow(2, nb - db), Pow(2, nb - db + 1);
    MulLe(Pow(2, db - 1), d, t);
    MulLe(d + 1, Pow(2, db), s);
    SumTimes(d, 1, s);
    DivModIs(d * s, 0, d * s, Pow(BASE, w));
  }

  lemma QuotientStep(q: nat, d: nat, p: nat)
    ensures (q + p) * d == q * d + d * p
  {
  }

  lemma Halved(d: nat, shift: nat)
    ensures d * Pow(2, shift + 1) == d * Pow(2, shift) + d * Pow(2, shift)
    ensures shift > 0 ==> (d * Pow(2, shift)) / Pow(2, 1) == d * Pow(2, shift - 1)
  {
    if shift > 0 {
      var p := d * Pow(2, shift - 1);
      assert d * Pow(2, shift) == 2 * p by { MulTwo(d, Pow(2, shift - 1)); }
      assert Pow(2, 1) == 2;
    }
    MulTwo(d, Pow(2, shift));
  }

  /** What the two ors of a turn of the left shift give. */
  lemma ShlBounds(a: seq<Limb>, t: seq<Limb>, i: nat, k: nat, s: nat)
    requires |t| == |a| && s < 32 && i < |a| && (i + k <= |a| ==> Shifted(a, t, i, k, s))
    ensures Hi(a[i], s) < BASE && (s == 0 ==> Hi(a[i], s) == 0)
    ensures i + k + 1 < |a| ==> t[i + k + 1] == 0 && Or(t[i + k + 1], Hi(a[i], s)) == Hi(a[i], s)
    ensures i + k < |a| ==> Or(t[i + k], Lo(a[i], s)) == t[i + k] as nat + Lo(a[i], s) as nat < BASE
  {
    hide Or, Pow;
    ShlOr(if i == 0 then 0 else a[i - 1], a[i], s);
    HiNone(a[i]);
  }

  lemma HiNone(x: Limb)
    ensures Hi(x, 0) == 0
  {
    Pow2Base();
  }

  lemma LimbFlipped(a: seq<Limb>, b: seq<Limb>, i: nat)
    requires i < |a| && i < |b| && b[i] == BASE - 1 - a[i]
    requires Val(b, i) + Val(a, i) == Pow(BASE, i) - 1
    ensures Val(b, i + 1) + Val(a, i + 1) == Pow(BASE, i + 1) - 1
  {
    SumTimes(a[i], b[i], Pow(BASE, i));
  }

  lemma LimbTimes(a: seq<Limb>, b: nat, i: nat)
    requires i < |a|
    ensures b * Val(a, i + 1) == b * Val(a, i) + (b * a[i] as nat) * Pow(BASE, i)
  {
    ProductNext(b, Val(a, i), a[i], Pow(BASE, i));
  }

  /** One limb of a product with a single limb. */
  lemma SmallStep(s: seq<Limb>, t: seq<Limb>, a: seq<Limb>, b: Limb, i: nat, carry: nat)
    requires i < |s| == |t| == |a| && (forall j :: 0 <= j < i ==> t[j] == s[j])
    requires t[i] == (carry + Term(0, b, a[i])) % BASE && Val(s, i) + carry * Pow(BASE, i) == b * Val(a, i)
    ensures Val(t, i + 1) + ((carry + Term(0, b, a[i])) / BASE) * Pow(BASE, i + 1) == b * Val(a, i + 1)
  {
    hide Val, Pow;
    LimbStep(s, t, i, carry, b * Val(a, i), Term(0, b, a[i]));
    LimbTimes(a, b, i);
  }

  lemma RowAdded(a: seq<Limb>, j: nat, vb: nat)
    requires j < |a|
    ensures Val(a, j + 1) * vb == Val(a, j) * vb + (a[j] * vb) * Pow(BASE, j)
  {
    var v, x: nat, p := Val(a, j), a[j], Pow(BASE, j);
    MulAssoc(x, vb, p);
    MulAssoc(x, p, vb);
    SumTimes(v, x * p, vb);
  }

  /** The first `i` limbs of `b` times `x`, added to `a` from limb `j` on. */
  ghost function RowSum(a: seq<Limb>, b: seq<Limb>, x: Limb, i: nat, j: nat): nat
    requires j + i <= |a| && i <= |b|
  {
    Val(a, j + i) + (x * Val(b, i)) * Pow(BASE, j)
  }

  lemma RowStart(a: seq<Limb>, b: seq<Limb>, x: Limb, j: nat)
    requires j <= |a|
    ensures RowSum(a, b, x, 0, j) == Val(a, j)
  {
  }

  /** The product of `x` with one more limb. */
  lemma RowNext(a: seq<Limb>, b: seq<Limb>, x: Limb, i: nat, j: nat)
    requires j + i < |a| && i < |b|
    ensures RowSum(a, b, x, i, j) + Term(a[i + j], x, b[i]) * Pow(BASE, j + i) == RowSum(a, b, x, i + 1, j)
  {
    var v, y: nat, p, q := Val(b, i), b[i], Pow(BASE, i), Pow(BASE, j);
    PowAdd(BASE, i, j);
    SumTimes(a[i + j], x * y, Pow(BASE, j + i));
    ProductNext(x, v, y, p);
    SumTimes(x * v, (x * y) * p, q);
    MulAssoc(x * y, p, q);
  }

  /** The limbs of `b` that do not fit any more contribute a multiple of the modulus. */
  lemma RowLost(a: seq<Limb>, b: seq<Limb>, x: Limb, w: nat, j: nat, carry: nat) returns (lost: nat)
    requires j <= w == |b| == |a|
    ensures Val(a, w) + (x * Val(b, w)) * Pow(BASE, j) + carry * Pow(BASE, w)
         == RowSum(a, b, x, w - j, j) + lost * Pow(BASE, w)
  {
    hide Val, Pow;
    var q := ValTail(b, w - j, w);
    var v, p, r := Val(b, w - j), Pow(BASE, w - j), Pow(BASE, j);
    PowAdd(BASE, w - j, j);
    ProductNext(x, v, q, p);
    SumTimes(x * v, (x * q) * p, r);
    MulAssoc(x * q, p, r);
    lost := carry + x * q;
    SumTimes(carry, x * q, Pow(BASE, w));
  }

  lemma LowTwo(s: seq<Limb>)
    requires |s| >= 2
    ensures Val(s, 2) == s[0] as nat + s[1] as nat * BASE && Pow(BASE, 2) == BASE * BASE
  {
    ValNext(s, 0);
    ValNext(s, 1);
    assert Pow(BASE, 0) == 1 && Pow(BASE, 1) == BASE;
  }

  lemma HighLimb(s: seq<Limb>, i: nat)
    requires 2 <= i < |s| && s[i] != 0
    ensures Val(s, |s|) >= BASE * BASE
  {
    hide Val, Pow;
    var q := ValTail(s, i + 1, |s|);
    ValNext(s, i);
    PowMono(BASE, 2, i);
    LowTwo(s);
    MulLe(1, s[i], Pow(BASE, i));
  }

  lemma {:induction false} AllOnes(s: seq<Limb>, n: nat)
    requires n <= |s| && forall i :: 0 <= i < n ==> s[i] == BASE - 1
    ensures Val(s, n) + 1 == Pow(BASE, n)
  {
    if n > 0 {
      AllOnes(s, n - 1);
      var p := Pow(BASE, n - 1);
      assert (BASE - 1) * p + p == BASE * p;
    }
  }

  /** The limbs below `i` went from all ones to zero, limb `i` went up by one, the rest stayed. */
  lemma {:induction false} OneMore(s: seq<Limb>, t: seq<Limb>, i: nat, n: nat)
    requires i < n <= |s| == |t| && Val(s, i) + 1 == Pow(BASE, i) && Val(t, i) == 0 && t[i] as nat == s[i] as nat + 1
    requires forall j :: i < j < n ==> t[j] == s[j]
    ensures Val(t, n) == Val(s, n) + 1
  {
    if n == i + 1 {
      var x: nat, p := s[i], Pow(BASE, i);
      assert (x + 1) * p == x * p + p;
    } else {
      OneMore(s, t, i, n - 1);
    }
  }

  lemma AddNegated(a: nat, b: nat, m: nat)
    requires a < m && b < m
    ensures (a + (m - b) % m) % m == (a + m - b) % m
  {
    if b == 0 {
      DivModIs(m, 1, 0, m);
      DivModIs(a + m, 1, a, m);
      DivModIs(a, 0, a, m);
    } else {
      DivModIs(m - b, 0, m - b, m);
    }
  }
}
