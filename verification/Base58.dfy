/**
 Base58: bytes as text.  The conversions work in place on digit buffers whose
 sizes come from rational approximations of a logarithm; those sizes always
 suffice, and the two directions are inverse to each other.
 */
module Base58 {
  import opened Basics
  import opened Powers
  import opened Limbs
  import opened Positional

  // ------------------------------------------------------------------
  // The buffers are large enough
  // ------------------------------------------------------------------

  lemma {:induction false} PowMul(b: nat, x: nat, y: nat)
    ensures Pow(b, x * y) == Pow(Pow(b, x), y)
  {
    if y > 0 {
      PowMul(b, x, y - 1);
      PowAdd(b, x, x * (y - 1));
      assert x * y == x + x * (y - 1);
    }
  }

  lemma {:induction false} PowBaseMono(a: nat, b: nat, n: nat)
    requires a <= b
    ensures Pow(a, n) <= Pow(b, n)
  {
    if n > 0 {
      PowBaseMono(a, b, n - 1);
      MulLe(a, b, Pow(a, n - 1));
      MulLe(Pow(a, n - 1), Pow(b, n - 1), b);
    }
  }

  lemma {:induction false} PowBaseStrict(a: nat, b: nat, n: nat)
    requires a < b && n > 0
    ensures Pow(a, n) < Pow(b, n)
  {
    PowBaseMono(a, b, n - 1);
    MulLe(Pow(a, n - 1), Pow(b, n - 1), a);
    MulLe(a + 1, b, Pow(b, n - 1));
    assert (a + 1) * Pow(b, n - 1) == a * Pow(b, n - 1) + Pow(b, n - 1);
  }

  /** Roots keep the order. */
  lemma RootMono(a: nat, b: nat, n: nat)
    requires n > 0 && Pow(a, n) <= Pow(b, n)
    ensures a <= b
  {
    if b < a {
      PowBaseStrict(b, a, n);
    }
  }

  lemma Seven()
    ensures Pow(2, 41) <= Pow(58, 7)
  {
    assert Pow(2, 10) == 1024;
    PowAdd(2, 10, 10);
    PowAdd(2, 20, 20);
    PowAdd(2, 40, 1);
    assert Pow(2, 1) == 2;
    assert Pow(58, 3) == 195112;
    PowAdd(58, 3, 3);
    PowAdd(58, 6, 1);
    assert Pow(58, 1) == 58;
  }

  lemma Eleven()
    ensures Pow(58, 11) == 24986644000165537792
  {
    assert Pow(58, 3) == 195112;
    assert Pow(58, 5) == 656356768;
    PowAdd(58, 3, 3);
    PowAdd(58, 6, 5);
  }

  lemma TwentyTwo()
    ensures Pow(58, 22) <= Pow(2, 129)
  {
    hide Pow;
    Eleven();
    PowAdd(58, 11, 11);
    Pow2Base();
    PowAdd(2, 32, 32);
    PowAdd(2, 64, 64);
    PowAdd(2, 128, 1);
    assert 24986644000165537792 * 24986644000165537792 == 624332378391008467754527498760580235264;
    PowOne(2);
  }

  /** n bytes fit into n * 138 / 100 + 1 digits of base 58. */
  lemma EncodeRoom(n: nat)
    ensures Pow(256, n) <= Pow(58, n * 138 / 100 + 1)
  {
    hide Pow;
    var d := n * 138 / 100 + 1;
    Eight();
    PowMul(2, 8, n);
    PowMul(Pow(2, 8), n, 7);
    PowMul(2, 8, n * 7);
    PowMono(2, 8 * (n * 7), 41 * d);
    PowMul(2, 41, d);
    Seven();
    PowBaseMono(Pow(2, 41), Pow(58, 7), d);
    PowMul(58, 7, d);
    PowMul(58, d, 7);
    RootMono(Pow(256, n), Pow(58, d), 7);
  }

  lemma Eight()
    ensures Pow(2, 8) == 256
  {
  }

  /** n digits of base 58 fit into n * 733 / 1000 + 1 bytes. */
  lemma DecodeRoom(n: nat)
    ensures Pow(58, n) <= Pow(256, n * 733 / 1000 + 1)
  {
    hide Pow;
    var d := n * 733 / 1000 + 1;
    Eight();
    PowMul(58, n, 22);
    PowMul(58, 22, n);
    TwentyTwo();
    PowBaseMono(Pow(58, 22), Pow(2, 129), n);
    PowMul(2, 129, n);
    PowMono(2, 129 * n, 8 * (d * 22));
    PowMul(2, 8, d * 22);
    PowMul(256, d, 22);
    RootMono(Pow(58, n), Pow(256, d), 22);
  }

  // ------------------------------------------------------------------
  // The alphabet
  // ------------------------------------------------------------------

  /** The inverse of the alphabet; -1 for characters that are not in it. */
  function DigitOf(c: char): (d: int)
    ensures -1 <= d < 58
  {
    var x := c as int;
    if 49 <= x <= 57 then x - 49
    else if 65 <= x <= 72 then x - 65 + 9
    else if 74 <= x <= 78 then x - 74 + 17
    else if 80 <= x <= 90 then x - 80 + 22
    else if 97 <= x <= 107 then x - 97 + 33
    else if 109 <= x <= 122 then x - 109 + 44
    else -1
  }

  /** The alphabet: all alphanumeric characters except for 0, I, O and l, in the order of their codes. */
  function CharOf(d: nat): (c: char)
    requires d < 58
    ensures DigitOf(c) == d
  {
    if d < 9 then (d + 49) as char
    else if d < 17 then (d - 9 + 65) as char
    else if d < 22 then (d - 17 + 74) as char
    else if d < 33 then (d - 22 + 80) as char
    else if d < 44 then (d - 33 + 97) as char
    else (d - 44 + 109) as char
  }

  lemma CharOfDigit(c: char)
    requires DigitOf(c) >= 0
    ensures CharOf(DigitOf(c)) == c
  {
  }

  predicate IsSpace(c: char) { c == ' ' || c == '\t' || c == '\n' || c == '\r' || c as int == 11 || c as int == 12 }

  // ------------------------------------------------------------------
  // Multiply and add, in place
  // ------------------------------------------------------------------

  /** The last `n` digits of a buffer, as a number. */
  ghost function Suffix(a: seq<nat>, base: nat, n: nat): nat
    requires n <= |a|
  {
    NumberOf(a[|a| - n..], base)
  }

  lemma SuffixNext(a: seq<nat>, base: nat, n: nat)
    requires n < |a|
    ensures Suffix(a, base, n + 1) == a[|a| - n - 1] * Pow(base, n) + Suffix(a, base, n)
  {
    assert a[|a| - (n + 1)..] == [a[|a| - n - 1]] + a[|a| - n..];
    NumberFront(a[|a| - n - 1], a[|a| - n..], base);
  }

  lemma {:induction false} SuffixZeros(a: seq<nat>, base: nat, n: nat, m: nat)
    requires n <= m <= |a| && forall k :: |a| - m <= k < |a| - n ==> a[k] == 0
    ensures Suffix(a, base, m) == Suffix(a, base, n)
  {
    if n < m {
      SuffixZeros(a, base, n, m - 1);
      SuffixNext(a, base, m - 1);
    }
  }

  lemma SuffixSame(a: seq<nat>, b: seq<nat>, base: nat, n: nat)
    requires |a| == |b| && n <= |a| && forall k :: |a| - n <= k < |a| ==> a[k] == b[k]
    ensures Suffix(a, base, n) == Suffix(b, base, n)
  {
    assert a[|a| - n..] == b[|b| - n..];
  }

  lemma SuffixNone(a: seq<nat>, base: nat)
    ensures Suffix(a, base, 0) == 0
  {
    assert a[|a|..] == [];
  }

  /** One digit of the product. */
  lemma DigitStep(v: nat, old_: nat, p: nat, x: nat, carry: nat, base: nat, mult: nat, c: nat)
    requires base > 0 && v + carry * p == old_ * mult + c
    ensures var t := carry + mult * x;
            (t % base * p + v) + t / base * (base * p) == (x * p + old_) * mult + c
  {
    var t := carry + mult * x;
    var q, r := t / base, t % base;
    MulAssoc(q, base, p);
    assert t == q * base + r;
    assert (q * base + r) * p == (q * base) * p + r * p;
    assert (carry + mult * x) * p == carry * p + (mult * x) * p;
    MulAssoc(mult, x, p);
    assert (x * p + old_) * mult == mult * (x * p) + old_ * mult;
  }

  /** The shortest length that holds the number. */
  ghost predicate Tight(v: nat, base: nat, n: nat) { n == 0 || v >= Pow(base, n - 1) }

  ghost predicate BufferOk(a: seq<nat>, base: nat, length: nat) {
    length <= |a| && DigitsBelow(a, base) && forall k :: 0 <= k < |a| - length ==> a[k] == 0
  }

  /** After `i` digits of the product, with `carry` still to be added. */
  ghost predicate Running(a: seq<nat>, a0: seq<nat>, base: nat, mult: nat, c: nat, carry: nat, i: nat, length: nat) {
    && i <= |a| == |a0| && DigitsBelow(a, base) && (forall k :: 0 <= k < |a| - i ==> a[k] == a0[k])
    && Suffix(a, base, i) + carry * Pow(base, i) == Suffix(a0, base, i) * mult + c
    && (i > length ==> Suffix(a, base, i) + carry * Pow(base, i) >= Pow(base, i - 1))
  }

  lemma RunningStart(a: seq<nat>, base: nat, mult: nat, c: nat, length: nat)
    requires DigitsBelow(a, base)
    ensures Running(a, a, base, mult, c, c, 0, length)
  {
    SuffixNone(a, base);
  }

  lemma BufferFacts(a: seq<nat>, base: nat, length: nat)
    requires BufferOk(a, base, length)
    ensures length <= |a| && DigitsBelow(a, base) && forall k :: 0 <= k < |a| - length ==> a[k] == 0
  {
  }

  /** One digit of the product, and what is carried on from it. */
  function Turn(carry: nat, mult: nat, x: nat, base: nat): (nat, nat)
    requires base > 0
  {
    ((carry + mult * x) % base, (carry + mult * x) / base)
  }

  lemma RunningStep(a: seq<nat>, a0: seq<nat>, base: nat, mult: nat, c: nat, carry: nat, i: nat, length: nat)
    requires base > 0 && Running(a, a0, base, mult, c, carry, i, length) && i < |a|
    requires (carry > 0 || i < length) && forall k :: 0 <= k < |a| - length ==> a0[k] == 0
    ensures var t := Turn(carry, mult, a[|a| - 1 - i], base);
            Running(a[|a| - 1 - i := t.0], a0, base, mult, c, t.1, i + 1, length)
  {
    hide Suffix;
    var x := a[|a| - 1 - i];
    var b := a[|a| - 1 - i := Turn(carry, mult, x, base).0];
    SuffixNext(b, base, i);
    SuffixNext(a0, base, i);
    SuffixSame(a, b, base, i);
    DigitStep(Suffix(a, base, i), Suffix(a0, base, i), Pow(base, i), x, carry, base, mult, c);
    if i >= length {
      CarryLeads(a, b, base, carry, i);
    }
  }

  /** A digit made from a carry alone leads the number. */
  lemma CarryLeads(a: seq<nat>, b: seq<nat>, base: nat, carry: nat, i: nat)
    requires base > 0 && carry > 0 && i < |a| == |b| && b == a[|a| - 1 - i := carry % base]
    ensures Suffix(b, base, i + 1) + carry / base * Pow(base, i + 1) >= Pow(base, i)
  {
    hide Suffix;
    var p := Pow(base, i);
    SuffixNext(b, base, i);
    var q, r := carry / base, carry % base;
    assert carry == q * base + r;
    MulAssoc(q, base, p);
    assert (q * base + r) * p == (q * base) * p + r * p;
    MulLe(1, carry, p);
  }

  lemma RunningEnd(a: seq<nat>, a0: seq<nat>, base: nat, mult: nat, c: nat, carry: nat, i: nat, length: nat)
    requires base > 0 && mult > 0 && Running(a, a0, base, mult, c, carry, i, length) && BufferOk(a0, base, length)
    requires Suffix(a0, base, |a0|) * mult + c < Pow(base, |a0|)
    requires i == |a| || (carry == 0 && i >= length)
    ensures carry == 0 && i >= length && BufferOk(a, base, i) && Suffix(a, base, |a|) == Suffix(a0, base, |a|) * mult + c
    ensures Tight(Suffix(a0, base, |a|), base, length) ==> Tight(Suffix(a, base, |a|), base, i)
  {
    hide Suffix, Pow;
    if i == |a| {
      if carry > 0 {
        MulLe(1, carry, Pow(base, i));
      }
    } else {
      SuffixZeros(a, base, i, |a|);
      SuffixZeros(a0, base, i, |a|);
    }
    MulLe(1, mult, Suffix(a0, base, |a|));
  }

  /** The buffer, read as a number, becomes `number * mult + c`; `n` is how many of its digits are in use then. */
  method MulAdd(a: array<nat>, base: nat, mult: nat, c: nat, length: nat) returns (n: nat)
    requires base > 0 && mult > 0 && BufferOk(a[..], base, length)
    requires Suffix(a[..], base, a.Length) * mult + c < Pow(base, a.Length)
    modifies a
    ensures BufferOk(a[..], base, n) && n >= length
    ensures Suffix(a[..], base, a.Length) == old(Suffix(a[..], base, a.Length)) * mult + c
    ensures old(Tight(Suffix(a[..], base, a.Length), base, length)) ==> Tight(Suffix(a[..], base, a.Length), base, n)
  {
    hide Running, Suffix, Tight, Pow, Turn, BufferOk, DigitsBelow;
    ghost var a0, size := a[..], a.Length;
    BufferFacts(a0, base, length);
    RunningStart(a0, base, mult, c, length);
    var carry: nat, i := c, 0;
    while (carry != 0 || i < length) && i < a.Length
      invariant 0 <= i <= size && Running(a[..], a0, base, mult, c, carry, i, length)
    {
      RunningStep(a[..], a0, base, mult, c, carry, i, length);
      var t := Turn(carry, mult, a[a.Length - 1 - i], base);
      ghost var b := a[..][size - 1 - i := t.0];
      a[a.Length - 1 - i] := t.0;
      assert a[..] == b;
      carry := t.1;
      i := i + 1;
    }
    RunningEnd(a[..], a0, base, mult, c, carry, i, length);
    assert carry == 0;
    n := i;
  }

  // ------------------------------------------------------------------
  // Encoding
  // ------------------------------------------------------------------

  function FirstNonZero(b: seq<nat>, i: nat): (r: nat)
    requires i <= |b|
    ensures i <= r <= |b| && (r < |b| ==> b[r] != 0) && forall k :: i <= k < r ==> b[k] == 0
    decreases |b| - i
  {
    if i == |b| || b[i] != 0 then i else FirstNonZero(b, i + 1)
  }

  function Chars(ds: seq<nat>): (s: string)
    requires DigitsBelow(ds, 58)
    ensures |s| == |ds|
  {
    seq(|ds|, i requires 0 <= i < |ds| => CharOf(ds[i]))
  }

  function Repeat<T>(x: T, n: nat): (s: seq<T>)
    ensures |s| == n && forall i :: 0 <= i < n ==> s[i] == x
  {
    seq(n, _ => x)
  }

  /** A one for each leading zero byte, then the rest as a number in base 58. */
  ghost function Encode(b: seq<Byte>): string {
    var z := FirstNonZero(b, 0);
    Repeat('1', z) + Chars(DigitsOf(NumberOf(b[z..], 256), 58))
  }

  method CountZeroes(b: seq<nat>) returns (z: nat)
    ensures z == FirstNonZero(b, 0)
  {
    z := 0;
    while z < |b| && b[z] == 0
      invariant z <= |b| && FirstNonZero(b, z) == FirstNonZero(b, 0)
    {
      z := z + 1;
    }
  }

  /** The used digits of a buffer are the shortest digits of its number. */
  lemma BufferDigits(a: seq<nat>, base: nat, n: nat)
    requires base >= 2 && BufferOk(a, base, n) && Tight(Suffix(a, base, |a|), base, n)
    ensures a[|a| - n..] == DigitsOf(Suffix(a, base, |a|), base) && (n > 0 ==> a[|a| - n] != 0)
  {
    SuffixZeros(a, base, n, |a|);
    var ds := a[|a| - n..];
    if n > 0 {
      LeadsWith(ds, base);
    }
    DigitsOfNumber(ds, base);
  }

  /** More digits of input do not overflow the buffer. */
  lemma RoomFor(b: seq<nat>, k: nat, base: nat, room: nat)
    requires k < |b| && DigitsBelow(b, base) && Pow(base, |b|) <= room && base > 0
    ensures NumberOf(b[..k], base) * base + b[k] < room
    ensures NumberOf(b[..k + 1], base) == NumberOf(b[..k], base) * base + b[k]
  {
    assert b[..k + 1] == b[..k] + [b[k]];
    NumberSnoc(b[..k], b[k], base);
    NumberBelow(b[..k + 1], base);
    PowMono(base, k + 1, |b|);
  }

  method EncodeBase58(b: seq<Byte>) returns (str: string)
    ensures str == Encode(b)
  {
    hide Suffix, Pow, DigitsOf, NumberOf, Tight;
    var zeroes := CountZeroes(b);
    var rest := b[zeroes..];
    var size := |rest| * 138 / 100 + 1;
    EncodeRoom(|rest|);
    var b58 := new nat[size](_ => 0);
    var length := 0;
    EmptyBuffer(b58[..], 58);
    assert rest[..0] == [];
    NumberNone(256);
    for k := 0 to |rest|
      invariant BufferOk(b58[..], 58, length) && Suffix(b58[..], 58, size) == NumberOf(rest[..k], 256)
      invariant Tight(Suffix(b58[..], 58, size), 58, length)
    {
      RoomFor(rest, k, 256, Pow(58, size));
      length := MulAdd(b58, 58, 256, rest[k], length);
    }
    assert rest[..|rest|] == rest;
    BufferDigits(b58[..], 58, length);
    str := WriteDigits(b58, size - length, zeroes);
  }

  lemma EmptyBuffer(a: seq<nat>, base: nat)
    requires base > 0 && forall k :: 0 <= k < |a| ==> a[k] == 0
    ensures BufferOk(a, base, 0) && Suffix(a, base, |a|) == 0 && Tight(0, base, 0)
  {
    SuffixZeros(a, base, 0, |a|);
    SuffixNone(a, base);
  }

  /** The digits from `start` on, without leading zeros, after a one for each leading zero byte. */
  method WriteDigits(b58: array<nat>, start: nat, zeroes: nat) returns (str: string)
    requires start <= b58.Length && DigitsBelow(b58[..], 58)
    ensures str == Repeat('1', zeroes) + Chars(b58[FirstNonZero(b58[..], start)..])
  {
    var it := start;
    while it < b58.Length && b58[it] == 0
      invariant start <= it <= b58.Length && FirstNonZero(b58[..], it) == FirstNonZero(b58[..], start)
    {
      it := it + 1;
    }
    str := Repeat('1', zeroes);
    ghost var first := it;
    while it < b58.Length
      invariant first <= it <= b58.Length && str == Repeat('1', zeroes) + Chars(b58[first..it])
    {
      assert b58[first..it + 1] == b58[first..it] + [b58[it]];
      str := str + [CharOf(b58[it])];
      it := it + 1;
    }
    assert b58[first..it] == b58[first..];
  }

  // ------------------------------------------------------------------
  // Decoding
  // ------------------------------------------------------------------

  function SkipSpaces(s: string, i: nat): (r: nat)
    requires i <= |s|
    ensures i <= r <= |s| && (r < |s| ==> !IsSpace(s[r])) && forall k :: i <= k < r ==> IsSpace(s[k])
    decreases |s| - i
  {
    if i == |s| || !IsSpace(s[i]) then i else SkipSpaces(s, i + 1)
  }

  function SkipOnes(s: string, i: nat): (r: nat)
    requires i <= |s|
    ensures i <= r <= |s| && (r < |s| ==> s[r] != '1') && forall k :: i <= k < r ==> s[k] == '1'
    decreases |s| - i
  {
    if i == |s| || s[i] != '1' then i else SkipOnes(s, i + 1)
  }

  function SkipWord(s: string, i: nat): (r: nat)
    requires i <= |s|
    ensures i <= r <= |s| && (r < |s| ==> IsSpace(s[r])) && forall k :: i <= k < r ==> !IsSpace(s[k])
    decreases |s| - i
  {
    if i == |s| || IsSpace(s[i]) then i else SkipWord(s, i + 1)
  }

  predicate AllDigits(s: string) { forall k :: 0 <= k < |s| ==> DigitOf(s[k]) >= 0 }

  function Digits(s: string): (ds: seq<nat>)
    requires AllDigits(s)
    ensures |ds| == |s| && DigitsBelow(ds, 58)
  {
    seq(|s|, i requires 0 <= i < |s| => DigitOf(s[i]))
  }

  /** The text between the spaces around it, split after its leading ones; none when there is anything else. */
  function Parse(s: string): (r: Option<(nat, string)>)
    ensures r.Some? ==> AllDigits(r.value.1) && (r.value.1 == [] || r.value.1[0] != '1')
  {
    var a := SkipSpaces(s, 0);
    var b := SkipOnes(s, a);
    var e := SkipWord(s, b);
    if SkipSpaces(s, e) != |s| || !AllDigits(s[b..e]) then None else Some((b - a, s[b..e]))
  }

  /** A zero byte for each leading one, then the rest as a number in base 256. */
  ghost function Bytes(z: nat, word: string): seq<nat>
    requires AllDigits(word)
  {
    Repeat(0, z) + DigitsOf(NumberOf(Digits(word), 58), 256)
  }

  ghost function Decode(s: string, maxRetLen: int): Option<seq<nat>> {
    var p := Parse(s);
    if p.None? then None
    else
      var v := Bytes(p.value.0, p.value.1);
      if v != [] && |v| > maxRetLen then None else Some(v)
  }

  lemma {:induction false} LengthMono(m: nat, n: nat, base: nat)
    requires base >= 2 && m <= n
    ensures |DigitsOf(m, base)| <= |DigitsOf(n, base)|
    decreases n
  {
    if m > 0 {
      Smaller(m, base);
      Smaller(n, base);
      QuotientMono(m, n, base);
      LengthMono(m / base, n / base, base);
    }
  }

  lemma QuotientMono(m: nat, n: nat, base: nat)
    requires base > 0 && m <= n
    ensures m / base <= n / base
  {
    var d := n / base;
    assert (d + 1) * base == d * base + base;
    QuotientBelow(m / base, d, base, n);
  }

  lemma {:induction false} PrefixSmaller(ds: seq<nat>, k: nat, base: nat)
    requires k <= |ds| && base > 0
    ensures NumberOf(ds[..k], base) <= NumberOf(ds, base)
  {
    if k < |ds| {
      var n := |ds| - 1;
      PrefixSmaller(ds[..n], k, base);
      assert ds[..n][..k] == ds[..k];
      MulLe(1, base, NumberOf(ds[..n], base));
    } else {
      assert ds[..k] == ds;
    }
  }

  /** What the characters up to `k` mean. */
  ghost function WordNumber(s: string, b: nat, k: nat): nat
    requires b <= k <= |s| && AllDigits(s[b..k])
  {
    NumberOf(Digits(s[b..k]), 58)
  }

  lemma NextChar(s: string, b: nat, k: nat)
    requires b <= k < |s| && AllDigits(s[b..k]) && DigitOf(s[k]) >= 0
    ensures AllDigits(s[b..k + 1]) && WordNumber(s, b, k + 1) == WordNumber(s, b, k) * 58 + DigitOf(s[k])
  {
    assert s[b..k + 1] == s[b..k] + [s[k]];
    assert Digits(s[b..k + 1]) == Digits(s[b..k]) + [DigitOf(s[k])];
    NumberSnoc(Digits(s[b..k]), DigitOf(s[k]), 58);
  }

  lemma NoDigit(s: string, b: nat, k: nat, e: nat)
    requires b <= k < e <= |s| && DigitOf(s[k]) < 0
    ensures !AllDigits(s[b..e])
  {
    assert DigitOf(s[b..e][k - b]) < 0;
  }

  lemma WordBelow(s: string, b: nat, k: nat)
    requires b <= k <= |s| && AllDigits(s[b..k])
    ensures WordNumber(s, b, k) < Pow(58, |s| - b)
  {
    NumberBelow(Digits(s[b..k]), 58);
    PowMono(58, k - b, |s| - b);
  }

  /** A longer word has at least as many bytes. */
  lemma LongerWord(s: string, b: nat, k: nat, e: nat)
    requires b <= k <= e <= |s| && AllDigits(s[b..e])
    ensures AllDigits(s[b..k]) && |DigitsOf(WordNumber(s, b, k), 256)| <= |DigitsOf(WordNumber(s, b, e), 256)|
  {
    assert s[b..k] == s[b..e][..k - b];
    assert Digits(s[b..k]) == Digits(s[b..e])[..k - b];
    PrefixSmaller(Digits(s[b..e]), k - b, 58);
    LengthMono(WordNumber(s, b, k), WordNumber(s, b, e), 256);
  }

  /** The word at `b` takes more than `room` bytes, or is no word. */
  ghost predicate TooLong(s: string, b: nat, room: int)
    requires b <= |s|
  {
    var e := SkipWord(s, b);
    e > b && (AllDigits(s[b..e]) ==> |DigitsOf(WordNumber(s, b, e), 256)| > room)
  }

  /** The loop over the characters of the word at `b`. */
  method DecodeWord(s: string, b: nat, room: int) returns (r: Option<(seq<nat>, nat)>)
    requires b <= |s|
    ensures r.None? <==> TooLong(s, b, room)
    ensures r.Some? ==>
              var e := SkipWord(s, b);
              AllDigits(s[b..e]) && r == Some((DigitsOf(WordNumber(s, b, e), 256), e))
  {
    hide Suffix, Pow, DigitsOf, NumberOf, Tight, SkipWord, WordNumber, BufferOk, AllDigits;
    var size := (|s| - b) * 733 / 1000 + 1;
    DecodeRoom(|s| - b);
    var b256 := new nat[size](_ => 0);
    var length, i := 0, b;
    EmptyBuffer(b256[..], 256);
    EmptyWord(s, b);
    ghost var e := SkipWord(s, b);
    while i < |s| && !IsSpace(s[i])
      invariant b <= i <= e && AllDigits(s[b..i]) && BufferOk(b256[..], 256, length)
      invariant Suffix(b256[..], 256, size) == WordNumber(s, b, i) && Tight(WordNumber(s, b, i), 256, length)
      invariant i > b ==> length <= room
    {
      var digit := DigitOf(s[i]);
      if digit == -1 {
        NoDigit(s, b, i, e);
        return None;
      }
      NextChar(s, b, i);
      WordBelow(s, b, i + 1);
      length := MulAdd(b256, 256, 58, digit, length);
      i := i + 1;
      if length > room {
        BufferFacts(b256[..], 256, length);
        BufferDigits(b256[..], 256, length);
        if AllDigits(s[b..e]) {
          LongerWord(s, b, i, e);
        }
        return None;
      }
    }
    BufferFacts(b256[..], 256, length);
    BufferDigits(b256[..], 256, length);
    r := Some((b256[size - length..], i));
  }

  lemma EmptyWord(s: string, b: nat)
    requires b <= |s|
    ensures AllDigits(s[b..b]) && WordNumber(s, b, b) == 0
  {
    NumberNone(58);
  }

  /** A word that does not start with a one is not zero. */
  lemma WordPositive(s: string, b: nat, e: nat)
    requires b < e <= |s| && s[b] != '1'
    ensures AllDigits(s[b..e]) ==> DigitsOf(NumberOf(Digits(s[b..e]), 58), 256) != []
  {
    if AllDigits(s[b..e]) {
      var ds := Digits(s[b..e]);
      assert DigitOf(s[b..e][0]) >= 0;
      CharOfDigit(s[b]);
      assert ds[0] != 0;
      LeadsPositive(ds, 58);
      ShortestLeads(NumberOf(ds, 58), 256);
    }
  }

  method DecodeBase58(s: string, maxRetLen: int) returns (r: Option<seq<nat>>)
    ensures r == Decode(s, maxRetLen)
  {
    hide DigitsOf, NumberOf, SkipWord, AllDigits;
    var i := SkipSpacesAt(s, 0);
    ghost var a := i;
    var zeroes := 0;
    while i < |s| && s[i] == '1'
      invariant a <= i <= |s| && zeroes == i - a && (zeroes > 0 ==> zeroes <= maxRetLen) && SkipOnes(s, i) == SkipOnes(s, a)
    {
      zeroes := zeroes + 1;
      if zeroes > maxRetLen {
        return None;
      }
      i := i + 1;
    }
    var word := DecodeWord(s, i, maxRetLen - zeroes);
    if word == None {
      WordPositive(s, i, SkipWord(s, i));
      return None;
    }
    var e := SkipSpacesAt(s, word.value.1);
    if e != |s| {
      return None;
    }
    EmptyWord(s, i);
    NoDigits();
    r := Some(Repeat(0, zeroes) + word.value.0);
  }

  method SkipSpacesAt(s: string, i: nat) returns (r: nat)
    requires i <= |s|
    ensures r == SkipSpaces(s, i)
  {
    r := i;
    while r < |s| && IsSpace(s[r])
      invariant i <= r <= |s| && SkipSpaces(s, r) == SkipSpaces(s, i)
    {
      r := r + 1;
    }
  }

  // ------------------------------------------------------------------
  // The two directions are inverse
  // ------------------------------------------------------------------

  ghost predicate AllSpaces(s: string) { forall k :: 0 <= k < |s| ==> IsSpace(s[k]) }

  /** A word between spaces is parsed into its leading ones and the rest. */
  lemma ParsePadded(before: string, z: nat, word: string, after: string)
    requires AllSpaces(before) && AllSpaces(after) && AllDigits(word) && (word == [] || word[0] != '1')
    ensures Parse(before + Repeat('1', z) + word + after) == Some((z, word))
  {
    hide IsSpace, DigitOf, SkipSpaces, SkipOnes, SkipWord;
    OneIsNoSpace();
    var s := before + Repeat('1', z) + word + after;
    if z == 0 && word == [] {
      SpacesEnd(s, 0, |s|);
      return;
    }
    var a, b, e := |before|, |before| + z, |before| + z + |word|;
    assert forall k :: a <= k < b ==> s[k] == '1';
    assert forall k :: 0 <= k < |word| ==> s[b + k] == word[k];
    assert forall k :: b <= k < e ==> s[k] == word[k - b];
    assert forall k :: e <= k < |s| ==> IsSpace(s[k]);
    WordChars(word);
    SpacesEnd(s, 0, a);
    OnesEnd(s, a, b);
    WordEnds(s, b, e);
    SpacesEnd(s, e, |s|);
    assert s[b..e] == word;
  }

  /** Digits are not spaces. */
  lemma WordChars(word: string)
    requires AllDigits(word)
    ensures forall k :: 0 <= k < |word| ==> !IsSpace(word[k])
  {
  }

  lemma {:induction false} SpacesEnd(s: string, i: nat, e: nat)
    requires i <= e <= |s| && (forall k :: i <= k < e ==> IsSpace(s[k])) && (e < |s| ==> !IsSpace(s[e]))
    ensures SkipSpaces(s, i) == e
    decreases e - i
  {
    if i < e {
      SpacesEnd(s, i + 1, e);
    }
  }

  lemma {:induction false} OnesEnd(s: string, i: nat, e: nat)
    requires i <= e <= |s| && (forall k :: i <= k < e ==> s[k] == '1') && (e < |s| ==> s[e] != '1')
    ensures SkipOnes(s, i) == e
    decreases e - i
  {
    if i < e {
      OnesEnd(s, i + 1, e);
    }
  }

  lemma {:induction false} WordEnds(s: string, i: nat, e: nat)
    requires i <= e <= |s| && (forall k :: i <= k < e ==> !IsSpace(s[k])) && (e < |s| ==> IsSpace(s[e]))
    ensures SkipWord(s, i) == e
    decreases e - i
  {
    if i < e {
      WordEnds(s, i + 1, e);
    }
  }

  lemma CharsDigits(ds: seq<nat>)
    requires DigitsBelow(ds, 58)
    ensures AllDigits(Chars(ds)) && Digits(Chars(ds)) == ds
    ensures ds != [] && ds[0] != 0 ==> Chars(ds)[0] != '1'
  {
    if ds != [] && ds[0] != 0 {
      assert DigitOf(Chars(ds)[0]) == ds[0];
    }
  }

  lemma DigitsChars(s: string)
    requires AllDigits(s)
    ensures Chars(Digits(s)) == s
  {
    forall k | 0 <= k < |s| ensures Chars(Digits(s))[k] == s[k] {
      CharOfDigit(s[k]);
    }
  }

  /** Decoding gives back what was encoded, with spaces around it or not, whenever the limit allows its length. */
  lemma DecodeEncode(b: seq<Byte>, maxRetLen: int, before: string, after: string)
    requires AllSpaces(before) && AllSpaces(after)
    ensures Decode(before + Encode(b) + after, maxRetLen) == if b == [] || |b| <= maxRetLen then Some(b) else None
  {
    hide DigitsOf, NumberOf, Parse, FirstNonZero;
    var z := FirstNonZero(b, 0);
    var n := NumberOf(b[z..], 256);
    var ds := DigitsOf(n, 58);
    EncodedWord(b);
    CharsDigits(ds);
    ParsePadded(before, z, Chars(ds), after);
    assert before + Encode(b) + after == before + Repeat('1', z) + Chars(ds) + after;
    NumberOfDigits(n, 58);
    assert b == Repeat(0, z) + b[z..];
    assert Bytes(z, Chars(ds)) == b;
  }

  lemma EncodedWord(b: seq<Byte>)
    ensures var z := FirstNonZero(b, 0);
            var n := NumberOf(b[z..], 256);
            && DigitsOf(n, 256) == b[z..]
            && (DigitsOf(n, 58) != [] ==> DigitsOf(n, 58)[0] != 0)
  {
    var z := FirstNonZero(b, 0);
    DigitsOfNumber(b[z..], 256);
    var n := NumberOf(b[z..], 256);
    if n > 0 {
      ShortestLeads(n, 58);
    }
  }

  /** The text without the spaces around it. */
  function Stripped(s: string): string {
    var a := SkipSpaces(s, 0);
    s[a..SkipWord(s, a)]
  }

  lemma EncodeBytes(z: nat, n: nat)
    ensures var v := Repeat(0, z) + DigitsOf(n, 256);
            DigitsBelow(v, 256) && Encode(v) == Repeat('1', z) + Chars(DigitsOf(n, 58))
  {
    hide DigitsOf, NumberOf, Chars, FirstNonZero;
    var v := Repeat(0, z) + DigitsOf(n, 256);
    DecodedBytes(z, n);
    assert v[z..] == DigitsOf(n, 256);
    NumberOfDigits(n, 256);
  }

  /** Encoding what an accepted text decodes to gives that text back, without the spaces around it. */
  lemma EncodeDecode(s: string, maxRetLen: int)
    requires Decode(s, maxRetLen).Some?
    ensures var v := Decode(s, maxRetLen).value;
            DigitsBelow(v, 256) && Encode(v) == Stripped(s)
  {
    hide DigitsOf, NumberOf, IsSpace, DigitOf, CharOf, Encode, Chars, Digits;
    var a := SkipSpaces(s, 0);
    var b := SkipOnes(s, a);
    var e := SkipWord(s, b);
    var word := s[b..e];
    WordLeads(word);
    DigitsOfNumber(Digits(word), 58);
    EncodeBytes(b - a, NumberOf(Digits(word), 58));
    DigitsChars(word);
    OneIsNoSpace();
    WholeWord(s, a, b, e);
    OnesFirst(s, a, b, e);
  }

  lemma OnesFirst(s: string, a: nat, b: nat, e: nat)
    requires a <= b <= e <= |s| && forall k :: a <= k < b ==> s[k] == '1'
    ensures s[a..e] == Repeat('1', b - a) + s[b..e]
  {
    assert s[a..e] == s[a..b] + s[b..e];
  }

  lemma OneIsNoSpace()
    ensures !IsSpace('1')
  {
  }

  lemma WordLeads(word: string)
    requires AllDigits(word) && (word == [] || word[0] != '1')
    ensures Digits(word) == [] || Digits(word)[0] != 0
  {
    if word != [] {
      CharOfDigit(word[0]);
    }
  }

  lemma DecodedBytes(z: nat, n: nat)
    ensures var v := Repeat(0, z) + DigitsOf(n, 256);
            DigitsBelow(v, 256) && FirstNonZero(v, 0) == z
  {
    hide DigitsOf;
    var v := Repeat(0, z) + DigitsOf(n, 256);
    NoDigits();
    if n > 0 {
      ShortestLeads(n, 256);
    }
    ZerosEnd(v, 0, z);
  }

  lemma NoDigits()
    ensures DigitsOf(0, 256) == []
  {
  }

  lemma {:induction false} ZerosEnd(v: seq<nat>, i: nat, z: nat)
    requires i <= z <= |v| && (forall k :: i <= k < z ==> v[k] == 0) && (z < |v| ==> v[z] != 0)
    ensures FirstNonZero(v, i) == z
    decreases z - i
  {
    if i < z {
      ZerosEnd(v, i + 1, z);
    }
  }

  lemma WholeWord(s: string, a: nat, b: nat, e: nat)
    requires a <= b <= |s| && b == SkipOnes(s, a) && e == SkipWord(s, b)
    ensures SkipWord(s, a) == e
  {
    WordEnds(s, a, e);
  }
}
