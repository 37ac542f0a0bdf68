/** Bitwise operations on natural numbers, for limbs whose bits are combined. */
module BitOps {
  import opened Powers

  function Or(x: nat, y: nat): nat {
    if x == 0 then y
    else if y == 0 then x
    else 2 * Or(x / 2, y / 2) + if x % 2 == 1 || y % 2 == 1 then 1 else 0
  }

  lemma OrEven(h: nat, y: nat)
    ensures Or(2 * h, y) == 2 * Or(h, y / 2) + y % 2 && Or(y, 2 * h) == 2 * Or(y / 2, h) + y % 2
  {
    if h > 0 && y > 0 {
      assert (2 * h) / 2 == h && (2 * h) % 2 == 0;
    }
  }

  /** The bits of a number below 2^k and of a multiple of 2^k do not meet. */
  lemma {:induction false} OrDisjoint(y: nat, q: nat, k: nat)
    requires y < Pow(2, k)
    ensures Or(y, q * Pow(2, k)) == Or(q * Pow(2, k), y) == q * Pow(2, k) + y
  {
    if k == 0 {
      assert Or(0, q) == Or(q, 0) == q;
    } else {
      hide Or;
      var p := Pow(2, k - 1);
      OrDisjoint(y / 2, q, k - 1);
      MulTwo(q, p);
      OrEven(q * p, y);
    }
  }

  /** Bit `k` of `x`. */
  predicate Bit(x: nat, k: nat) { x / Pow(2, k) % 2 == 1 }

  /** Of a number below 2^(k + 1), bit `k` tells whether it reaches 2^k. */
  lemma TopBit(x: nat, k: nat)
    requires x < Pow(2, k + 1)
    ensures Bit(x, k) <==> x >= Pow(2, k)
  {
    var p := Pow(2, k);
    if x >= p {
      DivModIs(x, 1, x - p, p);
    } else {
      DivModIs(x, 0, x, p);
    }
  }
}
