/** What the shift loops do to limbs, and what that does to the number. */
module LimbShift {
  import opened Powers
  import opened Limbs
  import opened BitOps

  /** The bits of a limb that a left shift by `s` pushes into the next one. */
  function Hi(x: Limb, s: nat): nat
    requires s <= 32
  {
    x / Pow(2, 32 - s)
  }

  /** The bits that stay, in their new place. */
  function Lo(x: Limb, s: nat): Limb { (x as nat * Pow(2, s)) % BASE }

  lemma Pow2Split(s: nat)
    requires s <= 32
    ensures Pow(2, 32 - s) * Pow(2, s) == BASE
  {
    PowAdd(2, 32 - s, s);
    Pow2Base();
  }

  /** A shifted limb falls into two parts whose bits do not overlap those of its neighbours. */
  lemma HiLo(x: Limb, s: nat) returns (q: nat)
    requires s <= 32
    ensures x as nat * Pow(2, s) == Hi(x, s) * BASE + Lo(x, s)
    ensures Hi(x, s) < Pow(2, s)
    ensures Lo(x, s) == q * Pow(2, s) && q == x as nat % Pow(2, 32 - s)
  {
    hide Pow;
    var p, r, h := Pow(2, 32 - s), Pow(2, s), Hi(x, s);
    Pow2Split(s);
    q := x as nat % p;
    ScaleSplit(x, h, q, p, r);
    HiBound(x, h, p, r);
    DivModIs(x as nat * r, h, q * r, BASE);
  }

  lemma ScaleSplit(x: nat, h: nat, q: nat, p: nat, r: nat)
    requires x == h * p + q && q < p && p * r == BASE
    ensures x * r == h * BASE + q * r && q * r < BASE
  {
    MulAssoc(h, p, r);
    assert x * r == (h * p) * r + q * r;
    MulLe(q + 1, p, r);
    assert (q + 1) * r == q * r + r;
    assert r > 0;
  }

  lemma HiBound(x: nat, h: nat, p: nat, r: nat)
    requires h * p <= x < BASE == p * r
    ensures h < r
  {
    if h >= r {
      MulLe(r, h, p);
    }
  }

  lemma PowShift(k: nat, s: nat)
    ensures Pow(BASE, k) * Pow(2, s) == Pow(2, 32 * k + s)
  {
    PowBase(k);
    PowAdd(2, 32 * k, s);
  }

  // ------------------------------------------------------------------
  // Left
  // ------------------------------------------------------------------

  /** After `i` limbs of `a` went into `t`. */
  ghost predicate Shifted(a: seq<Limb>, t: seq<Limb>, i: nat, k: nat, s: nat)
    requires |t| == |a| && s < 32
  {
    && i <= |a|
    && (forall j :: i + k < j < |t| ==> t[j] == 0)
    && (i + k < |t| ==>
          && Val(t, i + k + 1) == Val(a, i) * Pow(2, 32 * k + s)
          && t[i + k] == if i == 0 then 0 else Hi(a[i - 1], s))
  }

  lemma ShlStart(a: seq<Limb>, t: seq<Limb>, k: nat, s: nat)
    requires |t| == |a| && s < 32 && forall j :: 0 <= j < |t| ==> t[j] == 0
    ensures Shifted(a, t, 0, k, s)
  {
    if k < |t| {
      ValZero(t, 0, k + 1);
      ValNone(a);
      ValNone(t);
    }
  }

  /** The limb below is completed by an or, the limb above starts with the bits pushed out. */
  lemma ShlOr(prev: Limb, x: Limb, s: nat)
    requires s < 32
    ensures Or(Hi(prev, s), Lo(x, s)) == Hi(prev, s) + Lo(x, s) < BASE
    ensures Or(0, Lo(x, s)) == Lo(x, s) && Or(0, Hi(x, s)) == Hi(x, s) < BASE
  {
    var _ := HiLo(prev, s);
    var q := HiLo(x, s);
    OrDisjoint(Hi(prev, s), q, s);
    Pow2Split(s);
    NoCarry(q, Hi(prev, s), Pow(2, 32 - s), Pow(2, s));
    PowStrict(2, s, 32);
    Pow2Base();
  }

  lemma NoCarry(q: nat, y: nat, p: nat, r: nat)
    requires q < p && y < r && p * r == BASE
    ensures q * r + y < BASE
  {
    MulLe(q + 1, p, r);
    assert (q + 1) * r == q * r + r;
  }

  lemma ShlValue(v: nat, x: Limb, i: nat, k: nat, s: nat)
    requires s < 32
    ensures v * Pow(2, 32 * k + s) + (Hi(x, s) * BASE + Lo(x, s)) * Pow(BASE, i + k)
         == (v + x * Pow(BASE, i)) * Pow(2, 32 * k + s)
  {
    hide Pow, Hi, Lo;
    var _ := HiLo(x, s);
    PowShift(k, s);
    PowAdd(BASE, i, k);
    var p, q, r := Pow(BASE, i), Pow(BASE, k), Pow(2, s);
    Rearrange(v, x, p, q, r);
  }

  lemma Rearrange(v: nat, x: nat, p: nat, q: nat, r: nat)
    ensures v * (q * r) + (x * r) * (p * q) == (v + x * p) * (q * r)
  {
    MulAssoc(x * r, p, q);
    assert (x * r) * p == (x * p) * r;
    MulAssoc(x * p, r, q);
    assert q * r == r * q;
    assert (v + x * p) * (q * r) == v * (q * r) + (x * p) * (q * r);
  }

  /** One turn of the loop. */
  lemma ShlStep(a: seq<Limb>, t: seq<Limb>, u: seq<Limb>, i: nat, k: nat, s: nat)
    requires |u| == |t| == |a| && s < 32 && i < |a| && i + k < |a| && Shifted(a, t, i, k, s)
    requires u[i + k] == t[i + k] as nat + Lo(a[i], s) as nat
    requires i + k + 1 < |a| ==> u[i + k + 1] == Hi(a[i], s)
    requires forall j :: 0 <= j < |a| && j != i + k && j != i + k + 1 ==> u[j] == t[j]
    ensures Shifted(a, u, i + 1, k, s)
    ensures i + k + 1 == |a| ==> Val(u, |a|) + Hi(a[i], s) * Pow(BASE, |a|) == Val(a, i + 1) * Pow(2, 32 * k + s)
  {
    hide Pow, Hi, Lo, Val;
    ValSame(t, u, i + k);
    ValNext(a, i);
    ValNext(t, i + k);
    ValNext(u, i + k);
    if i + k + 1 < |a| {
      ValNext(u, i + k + 1);
    }
    ShlValue(Val(a, i), a[i], i, k, s);
    PowNext(i + k);
    ShlSum(Val(t, i + k), t[i + k], Lo(a[i], s), Hi(a[i], s), Pow(BASE, i + k));
  }

  lemma PowNext(n: nat)
    ensures Pow(BASE, n + 1) == BASE * Pow(BASE, n)
  {
  }

  lemma ShlSum(v: nat, y: nat, l: nat, h: nat, p: nat)
    ensures (v + (y + l) * p) + h * (BASE * p) == (v + y * p) + (h * BASE + l) * p
  {
    MulAssoc(h, BASE, p);
    SumTimes(h * BASE, l, p);
    SumTimes(y, l, p);
  }

  /** What was shifted out at the top is a multiple of the modulus. */
  lemma ShlEnd(a: seq<Limb>, t: seq<Limb>, k: nat, s: nat, top: nat)
    requires |t| == |a| && k < |a| && Val(t, |a|) + top * Pow(BASE, |a|) == Val(a, |a| - k) * Pow(2, 32 * k + s)
    ensures Val(t, |a|) == (Val(a, |a|) * Pow(2, 32 * k + s)) % Pow(BASE, |a|)
  {
    hide Pow, Val;
    var w := |a|;
    var q := ValTail(a, w - k, w);
    PowShift(k, s);
    PowAdd(BASE, w - k, k);
    var v, p, b, r := Val(a, w - k), Pow(BASE, w - k), Pow(BASE, k), Pow(2, s);
    Rearrange(v, q, p, b, r);
    ValBound(t, w);
    SumTimes(top, q * r, Pow(BASE, w));
    DivModIs(Val(a, w) * Pow(2, 32 * k + s), top + q * r, Val(t, w), Pow(BASE, w));
  }

  /** Shifting by the whole width or more leaves nothing. */
  lemma ShlAll(a: seq<Limb>, k: nat, s: nat)
    requires k >= |a|
    ensures (Val(a, |a|) * Pow(2, 32 * k + s)) % Pow(BASE, |a|) == 0
  {
    hide Pow, Val;
    var w := |a|;
    PowShift(k, s);
    PowAdd(BASE, k - w, w);
    var v, p, m, r := Val(a, w), Pow(BASE, k - w), Pow(BASE, w), Pow(2, s);
    ShlAllValue(v, p, m, r);
    ValBound(a, w);
    DivModIs(v * Pow(2, 32 * k + s), v * p * r, 0, m);
  }

  lemma ShlAllValue(v: nat, p: nat, m: nat, r: nat)
    ensures v * ((p * m) * r) == (v * p * r) * m
  {
    assert (p * m) * r == (p * r) * m by {
      MulAssoc(p, m, r);
      MulAssoc(p, r, m);
    }
    MulAssoc(v, p * r, m);
    MulAssoc(v, p, r);
  }

  // ------------------------------------------------------------------
  // Right
  // ------------------------------------------------------------------

  /** What a right shift by 32 * k + s drops. */
  ghost function Dropped(a: seq<Limb>, k: nat, s: nat): nat
    requires k < |a|
  {
    Val(a, k) + (a[k] as nat % Pow(2, s)) * Pow(BASE, k)
  }

  lemma DroppedBound(a: seq<Limb>, k: nat, s: nat)
    requires k < |a|
    ensures Dropped(a, k, s) < Pow(2, 32 * k + s)
  {
    hide Val, Pow;
    ValBound(a, k);
    PowShift(k, s);
    var l, p, r := a[k] as nat % Pow(2, s), Pow(BASE, k), Pow(2, s);
    MulLe(l + 1, r, p);
    SumTimes(l, 1, p);
  }

  /** After `i` limbs of `a` went into `t`. */
  ghost predicate ShiftedDown(a: seq<Limb>, t: seq<Limb>, i: nat, k: nat, s: nat)
    requires |t| == |a| && s < 32
  {
    && i <= |a|
    && (forall j :: 0 <= j < |t| && i <= j + k ==> t[j] == 0)
    && (i > k ==> Val(a, i) == Val(t, i - k) * Pow(2, 32 * k + s) + Dropped(a, k, s) && t[i - k - 1] == Hi(a[i - 1], 32 - s))
  }

  lemma ShrOr(prev: Limb, x: Limb, s: nat)
    requires s < 32
    ensures Or(Hi(prev, 32 - s), Lo(x, 32 - s)) == Hi(prev, 32 - s) + Lo(x, 32 - s) < BASE
    ensures Or(0, Hi(x, 32 - s)) == Hi(x, 32 - s) == x as nat / Pow(2, s) < BASE
    ensures s == 0 ==> Lo(x, 32 - s) == 0
  {
    var _ := HiLo(prev, 32 - s);
    var q := HiLo(x, 32 - s);
    OrDisjoint(Hi(prev, 32 - s), q, 32 - s);
    Pow2Split(32 - s);
    NoCarry(q, Hi(prev, 32 - s), Pow(2, s), Pow(2, 32 - s));
    PowMono(2, 32 - s, 32);
    Pow2Base();
    assert Pow(2, 0) == 1;
  }

  /** The first limb that is not dropped whole. */
  lemma ShrFirst(a: seq<Limb>, t: seq<Limb>, u: seq<Limb>, k: nat, s: nat)
    requires |u| == |t| == |a| && s < 32 && k < |a| && ShiftedDown(a, t, k, k, s)
    requires u[0] == Hi(a[k], 32 - s) && forall j :: 1 <= j < |a| ==> u[j] == t[j]
    ensures ShiftedDown(a, u, k + 1, k, s)
  {
    hide Pow, Val, Lo;
    ValNext(a, k);
    ValNext(u, 0);
    ValNone(u);
    PowZero(BASE);
    PowShift(k, s);
    var x: nat, p, r := a[k], Pow(BASE, k), Pow(2, s);
    var h, l := x / r, x % r;
    assert x == h * r + l;
    SumTimes(h * r, l, p);
    MulAssoc(h, r, p);
    assert r * p == p * r;
  }

  lemma ShrNext(a: seq<Limb>, t: seq<Limb>, u: seq<Limb>, i: nat, k: nat, s: nat)
    requires |u| == |t| == |a| && s < 32 && k < i < |a| && ShiftedDown(a, t, i, k, s)
    requires u[i - k - 1] == t[i - k - 1] as nat + Lo(a[i], 32 - s) as nat && u[i - k] == Hi(a[i], 32 - s)
    requires forall j :: 0 <= j < |a| && j != i - k && j != i - k - 1 ==> u[j] == t[j]
    ensures ShiftedDown(a, u, i + 1, k, s)
  {
    hide Pow, Val, Hi, Lo, Dropped;
    var n := i - k - 1;
    ValSame(t, u, n);
    ValNext(a, i);
    ValNext(t, n);
    ValNext(u, n);
    ValNext(u, n + 1);
    PowNext(n);
    ShlSum(Val(t, n), t[n], Lo(a[i], 32 - s), Hi(a[i], 32 - s), Pow(BASE, n));
    ShrValue(Val(t, n + 1), a[i], i, k, s);
  }

  lemma ShrValue(v: nat, x: Limb, i: nat, k: nat, s: nat)
    requires s < 32 && k < i
    ensures (v + (Hi(x, 32 - s) * BASE + Lo(x, 32 - s)) * Pow(BASE, i - k - 1)) * Pow(2, 32 * k + s)
         == v * Pow(2, 32 * k + s) + x * Pow(BASE, i)
  {
    hide Pow, Hi, Lo;
    var _ := HiLo(x, 32 - s);
    var d, p, b, q, r := Pow(2, 32 * k + s), Pow(BASE, i - k - 1), Pow(BASE, k), Pow(2, 32 - s), Pow(2, s);
    PowShift(k, s);
    Pow2Split(s);
    PowAdd(BASE, i - k - 1, k);
    PowNext(i - 1);
    SumTimes(v, (x * q) * p, d);
    Regroup(x, p, b, q, r);
  }

  lemma Regroup(x: nat, p: nat, b: nat, q: nat, r: nat)
    requires q * r == BASE
    ensures ((x * q) * p) * (b * r) == x * (BASE * (p * b))
  {
    MulAssoc(x * q, p, b * r);
    assert p * (b * r) == r * (p * b) by {
      MulAssoc(p, b, r);
    }
    MulAssoc(x * q, r, p * b);
    MulAssoc(x, q, r);
    MulAssoc(x, BASE, p * b);
  }

  lemma ShrEnd(a: seq<Limb>, t: seq<Limb>, k: nat, s: nat)
    requires |t| == |a| && s < 32 && ShiftedDown(a, t, |a|, k, s)
    ensures Val(t, |a|) == Val(a, |a|) / Pow(2, 32 * k + s)
  {
    hide Pow, Val, Hi, Dropped;
    var w, d := |a|, Pow(2, 32 * k + s);
    if k < w {
      ValZero(t, w - k, w);
      DroppedBound(a, k, s);
      DivModIs(Val(a, w), Val(t, w), Dropped(a, k, s), d);
    } else {
      ValZero(t, 0, w);
      ValNone(t);
      ValBound(a, w);
      PowMono(BASE, w, k);
      PowShift(k, s);
      MulLe(1, Pow(2, s), Pow(BASE, k));
      DivModIs(Val(a, w), 0, Val(a, w), d);
    }
  }

  // ------------------------------------------------------------------
  // Setting one bit below all bits that are set
  // ------------------------------------------------------------------

  function Clamp(n: int): (k: nat)
    ensures k <= 32
  {
    if n < 0 then 0 else if n > 32 then 32 else n
  }

  predicate LowClear(x: Limb, k: nat) { x as nat % Pow(2, k) == 0 }

  /** The lowest `n` bits are zero. */
  ghost predicate ClearBelow(t: seq<Limb>, n: nat) {
    forall j :: 0 <= j < |t| ==> LowClear(t[j], Clamp(n - 32 * j))
  }

  lemma ZeroClear(t: seq<Limb>, n: nat)
    requires forall j :: 0 <= j < |t| ==> t[j] == 0
    ensures ClearBelow(t, n)
  {
  }

  lemma SetBit(t: seq<Limb>, n: nat)
    requires ClearBelow(t, n + 1) && n / 32 < |t|
    ensures Or(t[n / 32], Pow(2, n % 32)) == t[n / 32] as nat + Pow(2, n % 32) < BASE
  {
    hide Or, Pow;
    var j, r := n / 32, n % 32;
    assert LowClear(t[j], Clamp(n + 1 - 32 * j));
    BitBelow(t[j], r);
  }

  lemma BitBelow(x: Limb, r: nat)
    requires r < 32 && LowClear(x, r + 1)
    ensures Or(x, Pow(2, r)) == x as nat + Pow(2, r) < BASE
  {
    hide Or, Pow;
    var p := Pow(2, r + 1);
    var q := ClearQuotient(x, p);
    PowStrict(2, r, r + 1);
    OrDisjoint(Pow(2, r), q, r + 1);
    Pow2Split(r + 1);
    HiBound(x, q, p, Pow(2, 32 - (r + 1)));
    NoCarry(q, Pow(2, r), Pow(2, 32 - (r + 1)), p);
  }

  lemma ClearQuotient(x: nat, p: nat) returns (q: nat)
    requires p > 0 && x % p == 0
    ensures x == q * p && q == x / p
  {
    q := x / p;
  }

  lemma BitValue(t: seq<Limb>, u: seq<Limb>, n: nat)
    requires |u| == |t| && n / 32 < |t| && u[n / 32] == t[n / 32] as nat + Pow(2, n % 32)
    requires forall j :: 0 <= j < |t| && j != n / 32 ==> u[j] == t[j]
    ensures Val(u, |t|) == Val(t, |t|) + Pow(2, n)
  {
    hide Pow, Val;
    ValUpdate(t, u, n / 32, Pow(2, n % 32), |t|);
    PowShift(n / 32, n % 32);
  }

  /** With or without bit `n`, the bits below it are still zero. */
  lemma StillClear(t: seq<Limb>, u: seq<Limb>, n: nat)
    requires |u| == |t| && ClearBelow(t, n + 1)
    requires forall j :: 0 <= j < |t| ==> u[j] == t[j] || (j == n / 32 && u[j] == t[j] as nat + Pow(2, n % 32))
    ensures ClearBelow(u, n)
  {
    hide Pow;
    forall j | 0 <= j < |t| ensures LowClear(u[j], Clamp(n - 32 * j)) {
      assert LowClear(t[j], Clamp(n + 1 - 32 * j));
      if j == n / 32 {
        FewerClear(t[j], n % 32);
        if u[j] != t[j] {
          PlusPower(t[j], Pow(2, n % 32));
        }
      } else if 32 * j > n {
        PowPositiveOne(u[j]);
      }
    }
  }

  lemma PowPositiveOne(x: nat)
    ensures x % Pow(2, 0) == 0
  {
  }

  lemma FewerClear(x: nat, k: nat)
    requires x % Pow(2, k + 1) == 0
    ensures x % Pow(2, k) == 0
  {
    var p := Pow(2, k);
    var q := x / (2 * p);
    assert x == q * (2 * p);
    MulAssoc(q, 2, p);
    DivModIs(x, q * 2, 0, p);
  }

  lemma PlusPower(x: nat, p: nat)
    requires p > 0 && x % p == 0
    ensures (x + p) % p == 0
  {
    var q := x / p;
    assert x == q * p;
    SumTimes(q, 1, p);
    DivModIs(x + p, q + 1, 0, p);
  }
}
