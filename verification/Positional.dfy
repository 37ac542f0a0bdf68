/** Numbers in positional notation: digits with the most significant first, in any base. */
module Positional {
  import opened Powers

  ghost predicate DigitsBelow(ds: seq<nat>, base: nat) { forall i :: 0 <= i < |ds| ==> ds[i] < base }

  ghost function NumberOf(ds: seq<nat>, base: nat): nat {
    if ds == [] then 0 else NumberOf(ds[..|ds| - 1], base) * base + ds[|ds| - 1]
  }

  /** The shortest digits of `n`. */
  ghost function DigitsOf(n: nat, base: nat): (ds: seq<nat>)
    requires base >= 2
    ensures DigitsBelow(ds, base)
  {
    if n == 0 then [] else
      Smaller(n, base);
      DigitsOf(n / base, base) + [n % base]
  }

  lemma Smaller(n: nat, base: nat)
    requires base >= 2 && n > 0
    ensures n / base < n && n % base < base
  {
    var q := n / base;
    assert n == q * base + n % base;
    MulLe(2, base, q);
  }

  lemma Whole(n: nat, base: nat)
    requires base > 0
    ensures n == n / base * base + n % base
  {
  }

  lemma NumberSnoc(ds: seq<nat>, d: nat, base: nat)
    ensures NumberOf(ds + [d], base) == NumberOf(ds, base) * base + d
  {
    assert (ds + [d])[..|ds|] == ds;
  }

  lemma NumberNone(base: nat)
    ensures NumberOf([], base) == 0
  {
  }

  /** A digit in front counts as much as its place. */
  lemma {:induction false} NumberFront(d: nat, ds: seq<nat>, base: nat)
    ensures NumberOf([d] + ds, base) == d * Pow(base, |ds|) + NumberOf(ds, base)
  {
    if ds == [] {
      NumberSnoc([], d, base);
      assert [d] + ds == [] + [d];
    } else {
      var n := |ds| - 1;
      NumberFront(d, ds[..n], base);
      assert [d] + ds == ([d] + ds[..n]) + [ds[n]];
      NumberSnoc([d] + ds[..n], ds[n], base);
      FrontStep(d, Pow(base, n), NumberOf(ds[..n], base), base, ds[n]);
    }
  }

  lemma FrontStep(d: nat, p: nat, v: nat, base: nat, last: nat)
    ensures (d * p + v) * base + last == d * (base * p) + (v * base + last)
  {
    MulAssoc(d, p, base);
    assert (d * p + v) * base == (d * p) * base + v * base;
  }

  lemma {:induction false} NumberBelow(ds: seq<nat>, base: nat)
    requires DigitsBelow(ds, base)
    ensures NumberOf(ds, base) < Pow(base, |ds|)
  {
    if ds != [] {
      var n := |ds| - 1;
      NumberBelow(ds[..n], base);
      var v, p := NumberOf(ds[..n], base), Pow(base, n);
      MulLe(v + 1, p, base);
      assert (v + 1) * base == v * base + base;
    }
  }

  lemma {:induction false} NumberOfDigits(n: nat, base: nat)
    requires base >= 2
    ensures NumberOf(DigitsOf(n, base), base) == n
  {
    hide NumberOf;
    if n == 0 {
      NumberNone(base);
    } else {
      Smaller(n, base);
      NumberOfDigits(n / base, base);
      NumberSnoc(DigitsOf(n / base, base), n % base, base);
      Whole(n, base);
    }
  }

  /** Digits without a leading zero are the shortest ones. */
  lemma {:induction false} DigitsOfNumber(ds: seq<nat>, base: nat)
    requires base >= 2 && DigitsBelow(ds, base) && (ds == [] || ds[0] != 0)
    ensures DigitsOf(NumberOf(ds, base), base) == ds
  {
    if ds != [] {
      var n := |ds| - 1;
      var v, last := NumberOf(ds[..n], base), ds[n];
      DigitsOfNumber(ds[..n], base);
      LeadsPositive(ds, base);
      DivModIs(NumberOf(ds, base), v, last, base);
      assert ds == ds[..n] + [last];
    }
  }

  lemma {:induction false} LeadsPositive(ds: seq<nat>, base: nat)
    requires base >= 1 && ds != [] && ds[0] != 0
    ensures NumberOf(ds, base) >= Pow(base, |ds| - 1) > 0
  {
    assert ds == [ds[0]] + ds[1..];
    NumberFront(ds[0], ds[1..], base);
    MulLe(1, ds[0], Pow(base, |ds| - 1));
  }

  /** A number that reaches the weight of its first place has a digit there. */
  lemma LeadsWith(ds: seq<nat>, base: nat)
    requires base >= 1 && DigitsBelow(ds, base) && ds != [] && NumberOf(ds, base) >= Pow(base, |ds| - 1)
    ensures ds[0] != 0
  {
    assert ds == [ds[0]] + ds[1..];
    NumberFront(ds[0], ds[1..], base);
    NumberBelow(ds[1..], base);
  }

  lemma {:induction false} ShortestLeads(n: nat, base: nat)
    requires base >= 2 && n > 0
    ensures DigitsOf(n, base) != [] && DigitsOf(n, base)[0] != 0
  {
    Smaller(n, base);
    if n / base > 0 {
      ShortestLeads(n / base, base);
    } else {
      DivModIs(n, 0, n % base, base);
    }
  }
}
