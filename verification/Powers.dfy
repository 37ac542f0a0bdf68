/** Powers of natural numbers, as the shifts and the positional codecs need them. */
module Powers {

  function Pow(b: nat, e: nat): (p: nat)
    ensures b > 0 ==> p > 0
  {
    if e == 0 then 1 else b * Pow(b, e - 1)
  }

  lemma MulLe(a: nat, b: nat, c: nat)
    requires a <= b
    ensures a * c <= b * c
  {
  }

  lemma MulAssoc(a: nat, b: nat, c: nat)
    ensures a * (b * c) == (a * b) * c
  {
  }

  lemma SumTimes(x: nat, y: nat, p: nat)
    ensures (x + y) * p == x * p + y * p
  {
  }

  lemma MulTwo(q: nat, p: nat)
    ensures q * (2 * p) == 2 * (q * p)
  {
  }

  lemma QuotientBelow(q: nat, d: nat, m: nat, x: nat)
    requires q * m <= x < (d + 1) * m
    ensures q <= d
  {
    if d + 1 <= q {
      MulLe(d + 1, q, m);
    }
  }

  lemma DivModIs(x: nat, q: nat, r: nat, m: nat)
    requires x == q * m + r && r < m
    ensures x / m == q && x % m == r
  {
    var d := x / m;
    assert (q + 1) * m == q * m + m && (d + 1) * m == d * m + m;
    QuotientBelow(q, d, m, x);
    QuotientBelow(d, q, m, x);
  }

  lemma DivMod(x: nat, p: nat) returns (q: nat, m: nat)
    requires p > 0
    ensures q == x / p && m == x % p && x == q * p + m && m < p
  {
    q, m := x / p, x % p;
  }

  lemma PowZero(b: nat)
    ensures Pow(b, 0) == 1
  {
  }

  lemma PowOne(b: nat)
    ensures Pow(b, 1) == b
  {
  }

  lemma {:induction false} PowAdd(b: nat, x: nat, y: nat)
    ensures Pow(b, x + y) == Pow(b, x) * Pow(b, y)
  {
    if x == 0 {
    } else {
      PowAdd(b, x - 1, y);
      var p, q := Pow(b, x - 1), Pow(b, y);
      assert Pow(b, x + y) == b * (p * q);
      MulAssoc(b, p, q);
    }
  }

  lemma {:induction false} PowMono(b: nat, x: nat, y: nat)
    requires b > 0 && x <= y
    ensures Pow(b, x) <= Pow(b, y)
  {
    if x < y {
      PowMono(b, x, y - 1);
      var p := Pow(b, y - 1);
      MulLe(1, b, p);
    }
  }

  lemma {:induction false} PowStrict(b: nat, x: nat, y: nat)
    requires b > 1 && x < y
    ensures Pow(b, x) < Pow(b, y)
  {
    PowMono(b, x, y - 1);
    var p := Pow(b, y - 1);
    MulLe(2, b, p);
  }
}
