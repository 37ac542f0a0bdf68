/**
 Golomb-coded sets, as BIP 158 defines them in its section "Golomb-Coded
 Sets": a sorted list of hashes, stored as Golomb-Rice coded differences in a
 bit stream, and searched without decoding it first.
 */
module Gcs {
  import opened Basics
  import opened Powers
  import opened Limbs
  import opened BitStream

  // ------------------------------------------------------------------
  // Golomb-Rice codes
  // ------------------------------------------------------------------

  function Ones(n: nat): (b: seq<bool>)
    ensures |b| == n
  {
    seq(n, _ => true)
  }

  /** The quotient by 2^P in unary, ended by a zero, and the remainder in P bits. */
  function Golomb(P: nat, x: nat): (b: seq<bool>)
    ensures |b| >= P + 1
  {
    Ones(Shr(x, P)) + [false] + BitsOf(x, P)
  }

  /** The first zero from position `i` on. */
  function FirstZero(b: seq<bool>, i: nat): (r: nat)
    requires i <= |b|
    ensures i <= r <= |b| && (r < |b| ==> !b[r])
    decreases |b| - i
  {
    if i == |b| || !b[i] then i else FirstZero(b, i + 1)
  }

  /** The number at the front of a bit stream, modulo 2^64, and how many bits it took. */
  function GolombDecode(P: nat, b: seq<bool>): (r: Option<(nat, nat)>)
    ensures r.Some? ==> P < r.value.1 <= |b|
  {
    var q := FirstZero(b, 0);
    if q + 1 + P > |b| then None
    else Some((Combine(q, P, ValOf(b[q + 1..q + 1 + P])), q + 1 + P))
  }

  /** `(q << P) + r` on 64 bits. */
  function Combine(q: nat, P: nat, r: nat): nat { (q * Pow(2, P) % WORD + r) % WORD }

  lemma {:induction false} ZeroAfterOnes(n: nat, rest: seq<bool>, i: nat)
    requires i <= n && rest != [] && !rest[0]
    ensures FirstZero(Ones(n) + rest, i) == n
    decreases n - i
  {
    if i < n {
      ZeroAfterOnes(n, rest, i + 1);
    }
  }

  /** Decoding finds the number that was encoded, whatever follows it. */
  lemma GolombRoundTrip(P: nat, x: nat, tail: seq<bool>)
    requires x < WORD
    ensures GolombDecode(P, Golomb(P, x) + tail) == Some((x, |Golomb(P, x)|))
  {
    hide BitsOf, ValOf, FirstZero, Shr, Low, Combine;
    var q, r := Shr(x, P), BitsOf(x, P);
    var b := Golomb(P, x) + tail;
    assert b == Ones(q) + ([false] + r + tail);
    ZeroAfterOnes(q, [false] + r + tail, 0);
    assert b[q + 1..q + 1 + P] == r;
    ValBits(x, P);
    CombineParts(x, P);
  }

  lemma CombineParts(x: nat, P: nat)
    requires x < WORD
    ensures Combine(Shr(x, P), P, Low(x, P)) == x
  {
    hide Pow, Shr, Low;
    DivMod2(x, P);
    var y := Shr(x, P) * Pow(2, P);
    DivModIs(y, 0, y, WORD);
    DivModIs(x, 0, x, WORD);
  }

  lemma {:induction false} AllOnesBits(k: nat, n: nat)
    requires n <= k
    ensures BitsOf(Pow(2, k) - 1, n) == Ones(n)
  {
    if n > 0 {
      AllOnesBits(k - 1, n - 1);
      assert (Pow(2, k) - 1) / 2 == Pow(2, k - 1) - 1;
      assert Ones(n) == Ones(n - 1) + [true];
    }
  }

  method GolombRiceEncode(w: BitWriter, P: nat, x: nat)
    requires w.Valid() && P < 64
    modifies w
    ensures w.Valid() && w.Bits() == old(w.Bits()) + Golomb(P, x) && old(w.out) <= w.out
  {
    hide Pow, BitsOf, Shr, Ones;
    var q := Shr(x, P);
    ghost var b0, q0 := w.Bits(), q;
    WordIs();
    while q > 0
      invariant 0 <= q <= q0 && w.Valid() && w.Bits() + Ones(q) == b0 + Ones(q0) && old(w.out) <= w.out
    {
      var nbits := if q <= 64 then q else 64;
      ghost var b := w.Bits();
      AllOnesBits(64, nbits);
      var done := w.Write(WORD - 1, nbits);
      OnesSplit(q, nbits);
      AppendAssoc(b, Ones(nbits), Ones(q - nbits));
      q := q - nbits;
    }
    assert w.Bits() + [] == w.Bits();
    var done := w.Write(0, 1);
    OneZero();
    done := w.Write(x, P);
    GolombParts(b0, P, x);
  }

  lemma OnesSplit(q: nat, n: nat)
    requires n <= q
    ensures Ones(q) == Ones(n) + Ones(q - n)
  {
  }

  lemma GolombParts(b: seq<bool>, P: nat, x: nat)
    ensures b + Ones(Shr(x, P)) + [false] + BitsOf(x, P) == b + Golomb(P, x)
  {
    hide Ones, Shr, BitsOf;
  }

  lemma OneZero()
    ensures BitsOf(0, 1) == [false]
  {
  }

  /** Reads ones up to the first zero. */
  method ReadUnary(r: BitReader) returns (q: Option<nat>)
    requires r.Valid()
    modifies r
    ensures r.Valid() && (old(r.offset) > 0 ==> r.offset > 0)
    ensures var b := old(r.Rest());
            var n := FirstZero(b, 0);
            if n == |b| then q == None else q == Some(n) && r.Rest() == b[n + 1..]
  {
    hide BitsOf, ValOf, FirstZero;
    ghost var b := r.Rest();
    var n: nat := 0;
    UnaryStep(b, 0);
    var bit := r.Read(1);
    while bit == Some(1)
      invariant n <= |b| && r.Valid() && FirstZero(b, n) == FirstZero(b, 0) && (old(r.offset) > 0 ==> r.offset > 0)
      invariant if n == |b| then bit == None else bit == Some(if b[n] then 1 else 0) && r.Rest() == b[n + 1..]
      decreases |b| - n
    {
      UnaryStep(b, n);
      n := n + 1;
      UnaryStep(b, n);
      bit := r.Read(1);
    }
    UnaryStep(b, n);
    q := if bit == None then None else Some(n);
  }

  method GolombRiceDecode(r: BitReader, P: nat) returns (x: Option<nat>)
    requires r.Valid() && P < 64
    modifies r
    ensures r.Valid() && (old(r.offset) > 0 ==> r.offset > 0)
    ensures var d := GolombDecode(P, old(r.Rest()));
            if d.None? then x == None else x == Some(d.value.0) && r.Rest() == old(r.Rest())[d.value.1..]
  {
    hide BitsOf, ValOf, FirstZero, Combine;
    ghost var b := r.Rest();
    var q := ReadUnary(r);
    if q == None {
      return None;
    }
    var rem := r.Read(P);
    if rem == None {
      return None;
    }
    ghost var n := q.value + 1;
    assert b[n..][..P] == b[n..n + P] && b[n..][P..] == b[n + P..];
    return Some(Combine(q.value, P, rem.value));
  }

  /** The bit at position `i`, and where the run of ones from there ends. */
  lemma UnaryStep(b: seq<bool>, i: nat)
    requires i <= |b|
    ensures i == |b| ==> FirstZero(b, i) == i
    ensures i < |b| ==>
              && |b[i..]| >= 1 && ValOf(b[i..][..1]) == (if b[i] then 1 else 0) && b[i..][1..] == b[i + 1..]
              && FirstZero(b, i) == (if b[i] then FirstZero(b, i + 1) else i)
    ensures b[0..] == b
  {
    if i < |b| {
      assert b[i..][..1] == [] + [b[i]];
      ValSnoc([], b[i]);
      EmptyVal();
    }
  }

  // ------------------------------------------------------------------
  // Mapping hashes into a range
  // ------------------------------------------------------------------

  /** The upper half of a product of two 64-bit numbers, from products of 32-bit halves that never overflow 64 bits. */
  method MapIntoRange(x: nat, n: nat) returns (upper64: nat)
    requires x < WORD && n < WORD
    ensures upper64 == Times(x, n) / WORD
  {
    hide Times;
    var xHi, xLo, nHi, nLo := x / BASE, x % BASE, n / BASE, n % BASE;
    var ac, ad, bc, bd := Times(xHi, nHi), Times(xHi, nLo), Times(xLo, nHi), Times(xLo, nLo);
    HalfProducts(xHi, nHi);
    HalfProducts(xHi, nLo);
    HalfProducts(xLo, nHi);
    HalfProducts(xLo, nLo);
    var mid34 := bd / BASE + bc % BASE + ad % BASE;
    assert mid34 < WORD;
    upper64 := ac + bc / BASE + ad / BASE + mid34 / BASE;
    SplitProduct(x, n, xHi, xLo, nHi, nLo);
    JoinProduct(Times(x, n), ac, ad, bc, bd);
    assert upper64 < WORD;
  }

  function Times(a: nat, b: nat): nat { a * b }

  lemma HalfProducts(a: nat, b: nat)
    requires a < BASE && b < BASE
    ensures Times(a, b) <= (BASE - 1) * (BASE - 1) < WORD
  {
    MulLe(a, BASE - 1, b);
    MulLe(b, BASE - 1, BASE - 1);
  }

  lemma SplitProduct(x: nat, n: nat, a: nat, b: nat, c: nat, d: nat)
    requires x == a * BASE + b && n == c * BASE + d
    ensures Times(x, n) == Times(a, c) * WORD + (Times(a, d) + Times(b, c)) * BASE + Times(b, d)
  {
    assert x * n == (a * BASE + b) * (c * BASE) + (a * BASE + b) * d;
    assert (a * BASE + b) * (c * BASE) == (a * c) * WORD + (b * c) * BASE;
    assert (a * BASE + b) * d == (a * d) * BASE + b * d;
  }

  lemma JoinProduct(xn: nat, ac: nat, ad: nat, bc: nat, bd: nat)
    requires xn == ac * WORD + (ad + bc) * BASE + bd
    ensures xn / WORD == ac + bc / BASE + ad / BASE + (bd / BASE + bc % BASE + ad % BASE) / BASE
  {
    var mid := bd / BASE + bc % BASE + ad % BASE;
    var upper := ac + bc / BASE + ad / BASE + mid / BASE;
    var low := mid % BASE * BASE + bd % BASE;
    assert xn == upper * WORD + low && low < WORD;
    DivModIs(xn, upper, low, WORD);
  }

  lemma RangeBound(x: nat, n: nat)
    requires x < WORD
    ensures n > 0 ==> Times(x, n) / WORD < n
    ensures n == 0 ==> Times(x, n) / WORD == 0
  {
    if n > 0 {
      MulLe(x + 1, WORD, n);
      assert (x + 1) * n == x * n + n;
      QuotientBelow(x * n / WORD, n - 1, WORD, x * n);
    }
  }

  // ------------------------------------------------------------------
  // Sizes at the front of a stream
  // ------------------------------------------------------------------

  const MAX_SIZE: nat := 0x1000_0000

  /** `k` bytes, least significant first. */
  function LittleEndian(n: nat, k: nat): (b: seq<Byte>)
    ensures |b| == k
  {
    if k == 0 then [] else [n % 256] + LittleEndian(n / 256, k - 1)
  }

  function FromLittleEndian(b: seq<Byte>, i: nat, k: nat): nat
    requires i + k <= |b|
    decreases k
  {
    if k == 0 then 0 else b[i] + 256 * FromLittleEndian(b, i + 1, k - 1)
  }

  lemma {:induction false} LittleEndianRoundTrip(n: nat, k: nat, before: seq<Byte>, after: seq<Byte>)
    requires n < Pow(256, k)
    ensures FromLittleEndian(before + LittleEndian(n, k) + after, |before|, k) == n
  {
    if k > 0 {
      LittleEndianRoundTrip(n / 256, k - 1, before + [n % 256], after);
      assert before + LittleEndian(n, k) + after == before + [n % 256] + LittleEndian(n / 256, k - 1) + after;
    }
  }

  /** The canonical form of a size. */
  function CompactSize(n: nat): (b: seq<Byte>)
    requires n < WORD
    ensures |b| >= 1
  {
    if n < 253 then [n]
    else if n < 0x1_0000 then [253] + LittleEndian(n, 2)
    else if n < BASE then [254] + LittleEndian(n, 4)
    else [255] + LittleEndian(n, 8)
  }

  /** The size at the front and the number of bytes it takes; none when it is cut off, not canonical or too large. */
  function ReadCompactSize(b: seq<Byte>): (r: Option<(nat, nat)>)
    ensures r.Some? ==> r.value.1 <= |b| && r.value.0 <= MAX_SIZE
  {
    if b == [] then None
    else if b[0] < 253 then Some((b[0], 1))
    else
      var k := if b[0] == 253 then 2 else if b[0] == 254 then 4 else 8;
      if 1 + k > |b| then None
      else
        var n := FromLittleEndian(b, 1, k);
        if n < (if k == 2 then 253 else if k == 4 then 0x1_0000 else BASE) || n > MAX_SIZE then None else Some((n, 1 + k))
  }

  lemma CompactSizeRoundTrip(n: nat, rest: seq<Byte>)
    requires n < BASE
    ensures var r := ReadCompactSize(CompactSize(n) + rest);
            if n <= MAX_SIZE then r == Some((n, |CompactSize(n)|)) else r == None
  {
    hide LittleEndian, FromLittleEndian, Pow;
    var b := CompactSize(n) + rest;
    if n >= 253 {
      var k := if n < 0x1_0000 then 2 else 4;
      FewBytes();
      LittleEndianRoundTrip(n, k, [b[0]], rest);
      assert b == [b[0]] + LittleEndian(n, k) + rest;
    }
  }

  lemma FewBytes()
    ensures Pow(256, 2) == 0x1_0000 && Pow(256, 4) == BASE
  {
    PowAdd(256, 2, 2);
  }
}
