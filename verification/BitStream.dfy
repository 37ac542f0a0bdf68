/** Streams of bits over streams of bytes: each byte gives its bits from the most significant one down. */
module BitStream {
  import opened Basics
  import opened Powers
  import opened Limbs
  import opened BitOps

  // ------------------------------------------------------------------
  // Numbers as bits
  // ------------------------------------------------------------------

  /** The `n` low bits of `x`, most significant first. */
  function BitsOf(x: nat, n: nat): (b: seq<bool>)
    ensures |b| == n
  {
    if n == 0 then [] else BitsOf(x / 2, n - 1) + [x % 2 == 1]
  }

  function ValOf(b: seq<bool>): nat {
    if b == [] then 0 else 2 * ValOf(b[..|b| - 1]) + if b[|b| - 1] then 1 else 0
  }

  lemma {:induction false} BitsJoin(x: nat, y: nat, m: nat, n: nat)
    requires y < Pow(2, n)
    ensures BitsOf(x * Pow(2, n) + y, m + n) == BitsOf(x, m) + BitsOf(y, n)
  {
    if n == 0 {
      assert BitsOf(x, m) + [] == BitsOf(x, m);
    } else {
      var p := Pow(2, n - 1);
      MulTwo(x, p);
      BitsJoin(x, y / 2, m, n - 1);
      var z := x * Pow(2, n) + y;
      assert z / 2 == x * p + y / 2 && z % 2 == y % 2;
      assert BitsOf(z, m + n) == (BitsOf(x, m) + BitsOf(y / 2, n - 1)) + [y % 2 == 1];
      assert BitsOf(y, n) == BitsOf(y / 2, n - 1) + [y % 2 == 1];
      AppendAssoc(BitsOf(x, m), BitsOf(y / 2, n - 1), [y % 2 == 1]);
    }
  }

  function Shr(x: nat, k: nat): nat { x / Pow(2, k) }

  function Low(x: nat, k: nat): nat { x % Pow(2, k) }

  lemma DivMod2(x: nat, n: nat)
    ensures x == Shr(x, n) * Pow(2, n) + Low(x, n) && Low(x, n) < Pow(2, n)
  {
  }

  lemma BitsLow(x: nat, n: nat)
    ensures BitsOf(Low(x, n), n) == BitsOf(x, n)
  {
    DivMod2(x, n);
    BitsJoin(Shr(x, n), Low(x, n), 0, n);
  }

  lemma BitsSplit(x: nat, m: nat, n: nat)
    ensures BitsOf(x, m + n) == BitsOf(Shr(x, n), m) + BitsOf(x, n)
  {
    hide Pow, BitsOf, Shr, Low;
    DivMod2(x, n);
    BitsJoin(Shr(x, n), Low(x, n), m, n);
    BitsLow(x, n);
  }

  lemma EmptyVal()
    ensures ValOf([]) == 0
  {
  }

  lemma ValSnoc(b: seq<bool>, c: bool)
    ensures ValOf(b + [c]) == 2 * ValOf(b) + if c then 1 else 0
  {
    assert (b + [c])[..|b|] == b;
  }

  lemma HalfMod(x: nat, p: nat)
    requires p > 0
    ensures x % (2 * p) == 2 * (x / 2 % p) + x % 2
  {
    var q, r := x / 2 / p, x / 2 % p;
    assert x / 2 == q * p + r;
    MulTwo(q, p);
    DivModIs(x, q, 2 * r + x % 2, 2 * p);
  }

  lemma {:induction false} ValBits(x: nat, n: nat)
    ensures ValOf(BitsOf(x, n)) == Low(x, n)
  {
    hide ValOf;
    if n == 0 {
      EmptyVal();
    } else {
      ValBits(x / 2, n - 1);
      ValSnoc(BitsOf(x / 2, n - 1), x % 2 == 1);
      HalfMod(x, Pow(2, n - 1));
    }
  }

  lemma {:induction false} ValJoin(a: seq<bool>, b: seq<bool>)
    ensures ValOf(a + b) == ValOf(a) * Pow(2, |b|) + ValOf(b)
  {
    if b == [] {
      assert a + b == a;
    } else {
      var n := |b| - 1;
      ValJoin(a, b[..n]);
      assert (a + b)[..|a + b| - 1] == a + b[..n];
      MulTwo(ValOf(a), Pow(2, n));
    }
  }

  lemma {:induction false} ValBelow(b: seq<bool>)
    ensures ValOf(b) < Pow(2, |b|)
  {
    if b != [] {
      ValBelow(b[..|b| - 1]);
    }
  }

  /** The bits of the bytes from `i` on. */
  function From(bytes: seq<Byte>, i: nat): (b: seq<bool>)
    requires i <= |bytes|
    ensures |b| == 8 * (|bytes| - i)
    decreases |bytes| - i
  {
    if i == |bytes| then [] else BitsOf(bytes[i], 8) + From(bytes, i + 1)
  }

  lemma {:induction false} FromAppend(bytes: seq<Byte>, b: Byte, i: nat)
    requires i <= |bytes|
    ensures From(bytes + [b], i) == From(bytes, i) + BitsOf(b, 8)
    decreases |bytes| - i
  {
    if i == |bytes| {
      assert From(bytes + [b], i + 1) == [];
    } else {
      FromAppend(bytes, b, i + 1);
      AppendAssoc(BitsOf(bytes[i], 8), From(bytes, i + 1), BitsOf(b, 8));
    }
  }

  // ------------------------------------------------------------------
  // Writing
  // ------------------------------------------------------------------

  const WORD: nat := 0x1_0000_0000_0000_0000

  lemma WordIs()
    ensures Pow(2, 64) == WORD && Pow(2, 8) == 256
  {
    Pow2Base();
    PowAdd(2, 32, 32);
    assert Pow(2, 4) == 16;
    PowAdd(2, 4, 4);
  }

  /** The first `bits` of the low `nbits` bits of `data`. */
  function Chunk(data: nat, nbits: nat, bits: nat): nat
    requires bits <= nbits
  {
    Low(Shr(data, nbits - bits), bits)
  }

  /** `(data << (64 - nbits)) >> (64 - room)` on 64 bits. */
  function Shifted(data: nat, nbits: nat, room: nat): nat
    requires nbits <= 64 && room <= 64
  {
    Shr(data * Pow(2, 64 - nbits) % WORD, 64 - room)
  }

  /** The shifts leave the leading bits, as many as there is room for. */
  lemma ChunkIs(data: nat, nbits: nat, room: nat)
    requires 0 < nbits <= 64 && 0 < room <= 8
    ensures var bits := Min(room, nbits);
            Shifted(data, nbits, room) == Chunk(data, nbits, bits) * Pow(2, room - bits)
  {
    hide Pow;
    WordIs();
    var d := Low(data, nbits);
    LowShifted(data, nbits);
    if room <= nbits {
      PowAdd(2, 64 - nbits, nbits - room);
      DivScaled(d, Pow(2, nbits - room), Pow(2, 64 - nbits));
      ModDiv(data, nbits - room, room);
      PowZero(2);
    } else {
      PowAdd(2, room - nbits, 64 - room);
      PowZero(2);
      MulAssoc(d, Pow(2, room - nbits), Pow(2, 64 - room));
      DivModIs(d * Pow(2, 64 - nbits), d * Pow(2, room - nbits), 0, Pow(2, 64 - room));
    }
  }

  /** `data << (64 - nbits)` keeps the low bits. */
  lemma LowShifted(data: nat, nbits: nat)
    requires nbits <= 64
    ensures (data * Pow(2, 64 - nbits)) % WORD == Low(data, nbits) * Pow(2, 64 - nbits)
  {
    hide Pow;
    WordIs();
    PowAdd(2, nbits, 64 - nbits);
    ModScaled(data, Pow(2, nbits), Pow(2, 64 - nbits));
  }

  lemma ModScaled(x: nat, p: nat, r: nat)
    requires p > 0 && r > 0
    ensures p * r > 0 && (x * r) % (p * r) == (x % p) * r
  {
    var q, m := x / p, x % p;
    MulAssoc(q, p, r);
    assert x * r == (q * p) * r + m * r;
    MulLe(m + 1, p, r);
    assert (m + 1) * r == m * r + r;
    DivModIs(x * r, q, m * r, p * r);
  }

  lemma DivScaled(d: nat, p: nat, r: nat)
    requires p > 0 && r > 0
    ensures p * r > 0 && r * p > 0 && (d * r) / (r * p) == d / p
  {
    var q, m := d / p, d % p;
    MulAssoc(q, p, r);
    assert d * r == (q * p) * r + m * r;
    MulLe(m + 1, p, r);
    assert (m + 1) * r == m * r + r;
    DivModIs(d * r, q, m * r, p * r);
  }

  /** The low k + n bits without the low k ones. */
  lemma ModDiv(x: nat, k: nat, n: nat)
    ensures Shr(Low(x, k + n), k) == Low(Shr(x, k), n)
  {
    hide Pow;
    PowAdd(2, n, k);
    DivThenMod(x, Pow(2, n), Pow(2, k));
  }

  lemma DivThenMod(x: nat, p: nat, r: nat)
    requires p > 0 && r > 0
    ensures p * r > 0 && x % (p * r) / r == x / r % p
  {
    var y, z := DivMod(x, r);
    var q, m := DivMod(y, p);
    TwoLevels(x, q, m, z, p, r);
    DivModIs(x, q, m * r + z, p * r);
    DivModIs(m * r + z, m, z, r);
  }

  lemma TwoLevels(x: nat, q: nat, m: nat, z: nat, p: nat, r: nat)
    requires m < p && z < r && x == (q * p + m) * r + z
    ensures x == q * (p * r) + (m * r + z) && m * r + z < p * r
  {
    MulAssoc(q, p, r);
    SumTimes(q * p, m, r);
    MulLe(m + 1, p, r);
    SumTimes(m, 1, r);
  }

  /** The bits of a partly filled byte. */
  function Filled(buffer: nat, offset: nat): seq<bool>
    requires offset <= 8
  {
    BitsOf(Shr(buffer, 8 - offset), offset)
  }

  lemma ShrLow(x: nat, k: nat)
    ensures Shr(x, k) == x / Pow(2, k) && Low(x, k) == x % Pow(2, k)
  {
  }

  /** Adding a chunk below the bits that are there. */
  lemma FillMore(buffer: nat, offset: nat, bits: nat, e: nat)
    requires offset + bits <= 8 && buffer < 256 && Low(buffer, 8 - offset) == 0 && e < Pow(2, bits)
    ensures var chunk := e * Pow(2, 8 - offset - bits);
            && Or(buffer, chunk) == buffer + chunk < 256
            && Low(buffer + chunk, 8 - offset - bits) == 0
            && Filled(buffer + chunk, offset + bits) == Filled(buffer, offset) + BitsOf(e, bits)
  {
    hide Pow, BitsOf, Or, Shr, Low;
    var r, room := 8 - offset - bits, 8 - offset;
    var q, p, t := Shr(buffer, room), Pow(2, bits), Pow(2, r);
    DivMod2(buffer, room);
    PowAdd(2, bits, r);
    FillSum(q, e, p, t, buffer);
    ShrLow(buffer + e * t, r);
    OrDisjoint(e * t, q, room);
    WordIs();
    PowAdd(2, offset, room);
    FillBound(q, Pow(2, offset), Pow(2, room), e * t);
    BitsJoin(q, e, offset, bits);
  }

  lemma FillChunk(buffer: nat, offset: nat, data: nat, nbits: nat, bits: nat)
    requires offset < 8 && buffer < 256 && Low(buffer, 8 - offset) == 0 && 0 < nbits <= 64 && bits == Min(8 - offset, nbits)
    ensures var b := Or(buffer, Shifted(data, nbits, 8 - offset));
            && b < 256 && Low(b, 8 - (offset + bits)) == 0
            && Filled(b, offset + bits) == Filled(buffer, offset) + BitsOf(Shr(data, nbits - bits), bits)
  {
    hide Pow, BitsOf, Or, Filled, Shifted, Shr, Low;
    ChunkIs(data, nbits, 8 - offset);
    LowBelow(Shr(data, nbits - bits), bits);
    FillMore(buffer, offset, bits, Chunk(data, nbits, bits));
    BitsLow(Shr(data, nbits - bits), bits);
  }

  lemma FillSum(q: nat, e: nat, p: nat, t: nat, buffer: nat)
    requires t > 0 && e < p && buffer == q * (p * t)
    ensures e * t < p * t && buffer + e * t == (q * p + e) * t
    ensures (buffer + e * t) / t == q * p + e && (buffer + e * t) % t == 0
  {
    MulLe(e + 1, p, t);
    assert (e + 1) * t == e * t + t;
    MulAssoc(q, p, t);
    assert (q * p + e) * t == (q * p) * t + e * t;
    DivModIs(buffer + e * t, q * p + e, 0, t);
  }

  lemma FillBound(q: nat, a: nat, b: nat, y: nat)
    requires a * b == 256 && q * b < 256 && y < b
    ensures q * b + y < 256
  {
    if q >= a {
      MulLe(a, q, b);
    } else {
      MulLe(q + 1, a, b);
      assert (q + 1) * b == q * b + b;
    }
  }

  class BitWriter {
    var out: seq<Byte>
    var buffer: nat
    var offset: nat

    ghost predicate Valid()
      reads this
    {
      offset < 8 && buffer < 256 && Low(buffer, 8 - offset) == 0
    }

    /** Everything written so far. */
    ghost function Bits(): seq<bool>
      requires offset < 8
      reads this
    {
      From(out, 0) + Filled(buffer, offset)
    }

    constructor (stream: seq<Byte>)
      ensures Valid() && out == stream && offset == 0 && Bits() == From(stream, 0)
    {
      out, buffer, offset := stream, 0, 0;
    }

    /** The low `nbits0` bits of `data`; not done for a number of bits that is out of range. */
    method Write(data: nat, nbits0: int) returns (done: bool)
      requires Valid()
      modifies this
      ensures Valid() && old(out) <= out && (done <==> 0 <= nbits0 <= 64)
      ensures Bits() == if done then old(Bits()) + BitsOf(data, nbits0) else old(Bits())
    {
      hide Pow, BitsOf, Or, From, Filled, Shr, Low;
      if nbits0 < 0 || nbits0 > 64 {
        return false;
      }
      var nbits: nat := nbits0;
      while nbits > 0
        invariant Valid() && nbits <= nbits0 && old(out) <= out
        invariant Bits() + BitsOf(data, nbits) == old(Bits()) + BitsOf(data, nbits0)
      {
        var bits := Min(8 - offset, nbits);
        ghost var before := Bits();
        WriteChunk(data, nbits, bits);
        BitsSplit(data, bits, nbits - bits);
        AppendAssoc(before, BitsOf(Shr(data, nbits - bits), bits), BitsOf(data, nbits - bits));
        nbits := nbits - bits;
      }
      assert BitsOf(data, 0) == [];
      return true;
    }

    /** One turn of the loop of Write. */
    method WriteChunk(data: nat, nbits: nat, bits: nat)
      requires Valid() && 0 < nbits <= 64 && bits == Min(8 - offset, nbits)
      modifies this
      ensures Valid() && Bits() == old(Bits()) + BitsOf(Shr(data, nbits - bits), bits) && old(out) <= out
    {
      hide Pow, BitsOf, Or, From, Filled, Shifted, Shr, Low;
      FillChunk(buffer, offset, data, nbits, bits);
      AppendAssoc(From(out, 0), Filled(buffer, offset), BitsOf(Shr(data, nbits - bits), bits));
      buffer := Or(buffer, Shifted(data, nbits, 8 - offset));
      offset := offset + bits;
      if offset == 8 {
        FullByte(out, buffer);
        out, buffer, offset := out + [buffer], 0, 0;
      }
    }

    /** Pads the last byte with zeros. */
    method Flush()
      requires Valid()
      modifies this
      ensures Valid() && offset == 0 && From(out, 0) == Bits() && old(out) <= out
      ensures |old(Bits())| <= |Bits()| < |old(Bits())| + 8 && Bits()[..|old(Bits())|] == old(Bits())
    {
      hide From;
      if offset == 0 {
        assert From(out, 0) == Bits();
        return;
      }
      Padded(buffer, offset);
      FromAppend(out, buffer, 0);
      ghost var all := From(out, 0) + BitsOf(buffer, 8);
      assert all[..|Bits()|] == Bits();
      out, buffer, offset := out + [buffer], 0, 0;
      assert Bits() == all;
    }
  }

  lemma FullByte(out: seq<Byte>, buffer: Byte)
    ensures From(out + [buffer], 0) + Filled(0, 0) == From(out, 0) + Filled(buffer, 8)
    ensures Low(0, 8) == 0
  {
    FromAppend(out, buffer, 0);
    assert Pow(2, 0) == 1;
    assert From(out + [buffer], 0) + [] == From(out + [buffer], 0);
  }

  lemma Padded(buffer: nat, offset: nat)
    requires offset <= 8
    ensures BitsOf(buffer, 8) == Filled(buffer, offset) + BitsOf(buffer, 8 - offset)
  {
    BitsSplit(buffer, offset, 8 - offset);
  }

  // ------------------------------------------------------------------
  // Reading
  // ------------------------------------------------------------------

  /** `data << bits` on 64 bits. */
  function ShiftUp(data: nat, bits: nat): nat { data * Pow(2, bits) % WORD }

  /** `(buffer << offset) >> (8 - bits)` on 8 bits. */
  function Picked(buffer: nat, offset: nat, bits: nat): nat
    requires bits <= 8
  {
    Shr(buffer * Pow(2, offset) % 256, 8 - bits)
  }

  lemma LowBelow(x: nat, k: nat)
    ensures Low(x, k) < Pow(2, k)
  {
  }

  /** These are the `bits` bits of a byte after the first `offset`. */
  lemma PickIs(buffer: nat, offset: nat, bits: nat)
    requires 0 < bits && offset + bits <= 8
    ensures Picked(buffer, offset, bits) == Low(Shr(buffer, 8 - offset - bits), bits)
  {
    hide Pow;
    WordIs();
    PowAdd(2, 8 - offset, offset);
    ModScaled(buffer, Pow(2, 8 - offset), Pow(2, offset));
    var d := Low(buffer, 8 - offset);
    PowAdd(2, offset, 8 - offset - bits);
    DivScaled(d, Pow(2, 8 - offset - bits), Pow(2, offset));
    ModDiv(buffer, 8 - offset - bits, bits);
  }

  lemma PickBits(buffer: nat, room: nat, bits: nat)
    requires bits <= room
    ensures BitsOf(buffer, room)[..bits] == BitsOf(Shr(buffer, room - bits), bits)
    ensures BitsOf(buffer, room)[bits..] == BitsOf(buffer, room - bits)
    ensures ValOf(BitsOf(buffer, room)[..bits]) == Low(Shr(buffer, room - bits), bits)
  {
    hide Pow, BitsOf, ValOf, Shr, Low;
    BitsSplit(buffer, bits, room - bits);
    ValBits(Shr(buffer, room - bits), bits);
  }

  class BitReader {
    const bytes: seq<Byte>
    var pos: nat
    var buffer: nat
    var offset: nat

    ghost predicate Valid()
      reads this
    {
      pos <= |bytes| && buffer < 256 && offset <= 8
    }

    /** What is still to be read. */
    ghost function Rest(): seq<bool>
      requires Valid()
      reads this
    {
      BitsOf(buffer, 8 - offset) + From(bytes, pos)
    }

    constructor (stream: seq<Byte>, start: nat)
      requires start <= |stream|
      ensures Valid() && bytes == stream && pos == start && offset == 8 && Rest() == From(stream, start)
    {
      bytes, pos, buffer, offset := stream, start, 0, 8;
    }

    /** The next `nbits0` bits as a number, or none when the stream ends before them or their number is out of range. */
    method Read(nbits0: int) returns (r: Option<nat>)
      requires Valid()
      modifies this
      ensures Valid() && (old(offset) > 0 ==> offset > 0)
      ensures if 0 <= nbits0 <= 64 && nbits0 <= old(|Rest()|) then
                r == Some(ValOf(old(Rest())[..nbits0])) && Rest() == old(Rest())[nbits0..]
              else r == None
      ensures !(0 <= nbits0 <= 64) ==> Rest() == old(Rest())
    {
      hide Pow, BitsOf, From, ValOf, Or, Shr, Low, Picked;
      if nbits0 < 0 || nbits0 > 64 {
        return None;
      }
      ghost var rest := Rest();
      ghost var n: nat := 0;
      var data: nat, nbits: nat := 0, nbits0;
      EmptyVal();
      while nbits > 0
        invariant Valid() && n + nbits == nbits0 && n <= |rest| && Rest() == rest[n..] && (old(offset) > 0 ==> offset > 0)
        invariant data == ValOf(rest[..n]) && data < Pow(2, n)
      {
        var more := Fill();
        if !more {
          return None;
        }
        var bits := Min(8 - offset, nbits);
        TakeMore(rest, n, bits);
        data := Take(data, bits, n);
        n, nbits := n + bits, nbits - bits;
      }
      return Some(data);
    }

    /** Reads the next byte when the last one is used up. */
    method Fill() returns (more: bool)
      requires Valid()
      modifies this
      ensures Valid() && Rest() == old(Rest()) && (more <==> |Rest()| > 0) && (if more then offset < 8 else offset == old(offset))
    {
      if offset == 8 {
        if pos == |bytes| {
          return false;
        }
        buffer, offset, pos := bytes[pos], 0, pos + 1;
      }
      return true;
    }

    /** One turn of the loop of Read. */
    method Take(data: nat, bits: nat, ghost n: nat) returns (data': nat)
      requires Valid() && 0 < bits && offset + bits <= 8 && n + bits <= 64 && data < Pow(2, n)
      modifies this`offset
      ensures Valid() && bits <= old(|Rest()|) && Rest() == old(Rest())[bits..]
      ensures data' == data * Pow(2, bits) + ValOf(old(Rest())[..bits]) && offset > 0
    {
      hide Pow, BitsOf, From, ValOf, Or, Shr, Low, ShiftUp, Picked;
      PickIs(buffer, offset, bits);
      PickBits(buffer, 8 - offset, bits);
      NoOverflow(data, bits, n);
      LowBelow(Shr(buffer, 8 - offset - bits), bits);
      OrDisjoint(Picked(buffer, offset, bits), data, bits);
      ghost var rest := Rest();
      assert rest[..bits] == BitsOf(buffer, 8 - offset)[..bits];
      assert rest[bits..] == BitsOf(buffer, 8 - offset)[bits..] + From(bytes, pos);
      data' := Or(ShiftUp(data, bits), Picked(buffer, offset, bits));
      offset := offset + bits;
    }
  }

  /** The number that some bits give and the number that more of them give. */
  lemma TakeMore(rest: seq<bool>, n: nat, bits: nat)
    ensures n + bits <= |rest| ==>
              && rest[n..][..bits] == rest[n..n + bits] && rest[n..][bits..] == rest[n + bits..]
              && ValOf(rest[..n + bits]) == ValOf(rest[..n]) * Pow(2, bits) + ValOf(rest[n..][..bits]) < Pow(2, n + bits)
  {
    hide Pow, ValOf;
    if n + bits <= |rest| {
      var taken := rest[n..n + bits];
      assert rest[..n + bits] == rest[..n] + taken && rest[n..][..bits] == taken && rest[n..][bits..] == rest[n + bits..];
      ValJoin(rest[..n], taken);
      ValBelow(rest[..n] + taken);
    }
  }

  lemma NoOverflow(data: nat, bits: nat, n: nat)
    requires data < Pow(2, n) && n + bits <= 64
    ensures ShiftUp(data, bits) == data * Pow(2, bits)
  {
    hide Pow;
    WordIs();
    PowAdd(2, n, bits);
    PowMono(2, n + bits, 64);
    ProductBelow(data, Pow(2, n), Pow(2, bits));
    DivModIs(data * Pow(2, bits), 0, data * Pow(2, bits), WORD);
  }

  lemma ProductBelow(x: nat, a: nat, b: nat)
    requires x < a && b > 0
    ensures x * b < a * b
  {
    MulLe(x + 1, a, b);
    SumTimes(x, 1, b);
  }
}
