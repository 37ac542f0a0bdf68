/**
 The rolling bloom filter: cells that remember in which of the last three
 generations they were touched.  A key is never forgotten before two whole
 generations have passed.
 */
module RollingBloom {
  import opened Powers
  import opened Limbs
  import opened WordBits

  type Key = seq<bv8>

  datatype Settings = Settings(perGeneration: nat, nHashFuncs: nat, nWords: nat, hash: (nat, Key) -> nat)

  /** The hash scaled down to [0, n). */
  function FastMod(x: nat, n: nat): (r: nat)
    requires x < BASE
    ensures n > 0 ==> r < n
  {
    Scaled(x, n)
  }

  /** The cell that hash function `n` gives a key: one bit in a pair of words. */
  function CellOf(c: Settings, key: Key, n: nat): (x: nat)
    requires c.nWords > 0
    ensures x < 64 * c.nWords
  {
    hide FastMod;
    var h := c.hash(n, key) % BASE;
    64 * (FastMod(h, 2 * c.nWords) / 2) + h % 64
  }

  /** Each cell holds 0 or the number, 1 to 3, of a generation. */
  datatype Filter = Filter(cells: seq<nat>, gen: nat, entries: nat)

  ghost predicate Shaped(c: Settings, f: Filter) { c.nWords > 0 && |f.cells| == 64 * c.nWords && 1 <= f.gen <= 3 }

  function Reset(c: Settings): Filter { Filter(seq(64 * c.nWords, _ => 0), 1, 0) }

  function NextGen(gen: nat): nat { if gen + 1 == 4 then 1 else gen + 1 }

  function Wiped(cells: seq<nat>, gen: nat): seq<nat> {
    seq(|cells|, i requires 0 <= i < |cells| => if cells[i] == gen then 0 else cells[i])
  }

  function Advance(c: Settings, f: Filter): Filter {
    if f.entries == c.perGeneration then Filter(Wiped(f.cells, NextGen(f.gen)), NextGen(f.gen), 0) else f
  }

  /** The cells after the first `n` hash functions. */
  function Marked(c: Settings, cells: seq<nat>, key: Key, gen: nat, n: nat): (r: seq<nat>)
    requires c.nWords > 0 && |cells| == 64 * c.nWords
    ensures |r| == |cells|
  {
    if n == 0 then cells else Marked(c, cells, key, gen, n - 1)[CellOf(c, key, n - 1) := gen]
  }

  function Insert(c: Settings, f: Filter, key: Key): (r: Filter)
    requires Shaped(c, f)
    ensures Shaped(c, r)
  {
    var g := Advance(c, f);
    Filter(Marked(c, g.cells, key, g.gen, c.nHashFuncs), g.gen, g.entries + 1)
  }

  predicate Contains(c: Settings, f: Filter, key: Key)
    requires Shaped(c, f)
  {
    forall n :: 0 <= n < c.nHashFuncs ==> f.cells[CellOf(c, key, n)] != 0
  }

  /** The filter after the first `n` keys since a reset. */
  function Run(c: Settings, keys: seq<Key>, n: nat): (f: Filter)
    requires c.nWords > 0 && n <= |keys|
    ensures Shaped(c, f)
  {
    if n == 0 then Reset(c) else Insert(c, Run(c, keys, n - 1), keys[n - 1])
  }

  // ------------------------------------------------------------------
  // What a cell means
  // ------------------------------------------------------------------

  ghost predicate Touches(c: Settings, key: Key, x: nat, n: nat)
    requires c.nWords > 0
  {
    exists k :: 0 <= k < n && CellOf(c, key, k) == x
  }

  lemma {:induction false} MarkedAt(c: Settings, cells: seq<nat>, key: Key, gen: nat, n: nat, x: nat)
    requires c.nWords > 0 && x < |cells| == 64 * c.nWords
    ensures Marked(c, cells, key, gen, n)[x] == if Touches(c, key, x, n) then gen else cells[x]
  {
    if n > 0 {
      MarkedAt(c, cells, key, gen, n - 1, x);
      assert Touches(c, key, x, n) <==> Touches(c, key, x, n - 1) || CellOf(c, key, n - 1) == x;
    }
  }

  /** The index of the last of the first `n` keys that touched cell `x`, or -1. */
  ghost function LastTouch(c: Settings, keys: seq<Key>, n: nat, x: nat): (t: int)
    requires c.nWords > 0 && n <= |keys|
    ensures -1 <= t < n
    ensures forall i :: t < i < n ==> !Touches(c, keys[i], x, c.nHashFuncs)
  {
    if n == 0 then -1
    else if Touches(c, keys[n - 1], x, c.nHashFuncs) then n - 1
    else LastTouch(c, keys, n - 1, x)
  }

  /** The generation in which key number `i` is inserted, counting all generations from zero. */
  function GenOf(c: Settings, i: nat): nat
    requires c.perGeneration > 0
  {
    i / c.perGeneration
  }

  /** The generation that the filter is in after `n` keys. */
  function Now(c: Settings, n: nat): nat
    requires c.perGeneration > 0
  {
    if n == 0 then 0 else GenOf(c, n - 1)
  }

  /** What a cell last touched in generation `g` holds in generation `now`. */
  function Held(g: nat, now: nat): nat { if g + 3 <= now then 0 else 1 + g % 3 }

  ghost function Expected(c: Settings, keys: seq<Key>, n: nat, now: nat, x: nat): nat
    requires c.nWords > 0 && c.perGeneration > 0 && n <= |keys|
  {
    var t := LastTouch(c, keys, n, x);
    if t < 0 then 0 else Held(GenOf(c, t), now)
  }

  lemma GenStep(c: Settings, n: nat, entries: nat)
    requires c.perGeneration > 0 && n == Now(c, n) * c.perGeneration + entries && entries <= c.perGeneration
    ensures GenOf(c, n) == if entries == c.perGeneration then Now(c, n) + 1 else Now(c, n)
  {
    var e, q := c.perGeneration, Now(c, n);
    if entries == e {
      assert (q + 1) * e == q * e + e;
      DivModIs(n, q + 1, 0, e);
    } else {
      DivModIs(n, q, entries, e);
    }
  }

  lemma GenMono(c: Settings, i: nat, j: nat)
    requires c.perGeneration > 0 && i <= j
    ensures GenOf(c, i) <= GenOf(c, j)
  {
    var e := c.perGeneration;
    var q, d := i / e, j / e;
    assert (d + 1) * e == d * e + e;
    QuotientBelow(q, d, e, j);
  }

  lemma NextNumber(now: nat)
    ensures NextGen(1 + now % 3) == 1 + (now + 1) % 3
  {
  }

  /** A new generation takes the number of the one three before it, and wipes what that one left. */
  lemma WipedHeld(g: nat, now: nat)
    requires g <= now
    ensures Held(g, now + 1) == if Held(g, now) == 1 + (now + 1) % 3 then 0 else Held(g, now)
  {
  }

  ghost predicate Exact(c: Settings, keys: seq<Key>, n: nat, f: Filter)
    requires c.nWords > 0 && c.perGeneration > 0 && n <= |keys|
  {
    && Shaped(c, f) && f.gen == 1 + Now(c, n) % 3
    && n == Now(c, n) * c.perGeneration + f.entries && f.entries <= c.perGeneration
    && forall x :: 0 <= x < 64 * c.nWords ==> f.cells[x] == Expected(c, keys, n, Now(c, n), x)
  }

  /** After any keys, every cell holds the number of the generation that last touched it, if that is
      one of the last three, and zero otherwise. */
  lemma {:induction false} RunExact(c: Settings, keys: seq<Key>, n: nat)
    requires c.nWords > 0 && c.perGeneration > 0 && n <= |keys|
    ensures Exact(c, keys, n, Run(c, keys, n))
  {
    if n > 0 {
      RunExact(c, keys, n - 1);
      InsertExact(c, keys, n - 1, Run(c, keys, n - 1));
    }
  }

  lemma InsertExact(c: Settings, keys: seq<Key>, n: nat, f: Filter)
    requires c.nWords > 0 && c.perGeneration > 0 && n < |keys| && Exact(c, keys, n, f)
    ensures Exact(c, keys, n + 1, Insert(c, f, keys[n]))
  {
    hide GenOf, Touches, Marked, Wiped;
    GenStep(c, n, f.entries);
    var now, g, f' := GenOf(c, n), Advance(c, f), Insert(c, f, keys[n]);
    CountsOn(c, n, f.entries);
    forall x | 0 <= x < 64 * c.nWords ensures f'.cells[x] == Expected(c, keys, n + 1, now, x) {
      AdvanceExact(c, keys, n, f, x);
      MarkedAt(c, g.cells, keys[n], g.gen, c.nHashFuncs, x);
    }
  }

  lemma CountsOn(c: Settings, n: nat, entries: nat)
    requires c.perGeneration > 0 && n == Now(c, n) * c.perGeneration + entries && entries <= c.perGeneration
    ensures var e := if entries == c.perGeneration then 0 else entries;
            n + 1 == GenOf(c, n) * c.perGeneration + e + 1 && Now(c, n + 1) == GenOf(c, n)
  {
    GenStep(c, n, entries);
    assert (Now(c, n) + 1) * c.perGeneration == Now(c, n) * c.perGeneration + c.perGeneration;
  }

  lemma AdvanceExact(c: Settings, keys: seq<Key>, n: nat, f: Filter, x: nat)
    requires c.nWords > 0 && c.perGeneration > 0 && n < |keys| && Exact(c, keys, n, f) && x < 64 * c.nWords
    ensures |Advance(c, f).cells| == 64 * c.nWords && Advance(c, f).gen == 1 + GenOf(c, n) % 3
    ensures Advance(c, f).cells[x] == Expected(c, keys, n, GenOf(c, n), x)
  {
    hide LastTouch, GenOf, Held, NextGen;
    GenStep(c, n, f.entries);
    NextNumber(Now(c, n));
    var t := LastTouch(c, keys, n, x);
    if t >= 0 {
      GenMono(c, t, n - 1);
      WipedHeld(GenOf(c, t), Now(c, n));
    }
  }

  /** Every key among the last two generations' worth is found. */
  lemma RecentFound(c: Settings, keys: seq<Key>, n: nat, i: nat)
    requires c.nWords > 0 && c.perGeneration > 0 && i < n <= |keys| && n <= i + 2 * c.perGeneration
    ensures Contains(c, Run(c, keys, n), keys[i])
  {
    RunExact(c, keys, n);
    var f := Run(c, keys, n);
    forall k | 0 <= k < c.nHashFuncs ensures f.cells[CellOf(c, keys[i], k)] != 0 {
      var x := CellOf(c, keys[i], k);
      assert Touches(c, keys[i], x, c.nHashFuncs);
      var t := LastTouch(c, keys, n, x);
      GenMono(c, i, t);
      TwoGenerations(c, i, n);
    }
  }

  lemma TwoGenerations(c: Settings, i: nat, n: nat)
    requires c.perGeneration > 0 && i < n <= i + 2 * c.perGeneration
    ensures Now(c, n) <= GenOf(c, i) + 2
  {
    var e, q, r := c.perGeneration, i / c.perGeneration, i % c.perGeneration;
    assert i == q * e + r;
    assert (q + 2) * e == q * e + 2 * e;
    DivModIs(i + 2 * e, q + 2, r, e);
    GenMono(c, n - 1, i + 2 * e);
  }

  /** A key is reported exactly when each of its cells was touched in one of the last three generations. */
  lemma FoundExactly(c: Settings, keys: seq<Key>, n: nat, key: Key)
    requires c.nWords > 0 && c.perGeneration > 0 && n <= |keys|
    ensures Contains(c, Run(c, keys, n), key) <==>
            forall k :: 0 <= k < c.nHashFuncs ==>
              var t := LastTouch(c, keys, n, CellOf(c, key, k)); t >= 0 && Now(c, n) <= GenOf(c, t) + 2
  {
    RunExact(c, keys, n);
  }

  // ------------------------------------------------------------------
  // The object: two bit planes
  // ------------------------------------------------------------------

  /** The number in cell `x`: its low bit in one word of a pair, its high bit in the other. */
  function CellValue(data: seq<bv64>, x: nat): nat
    requires 2 * (x / 64) + 1 < |data|
  {
    (if BitAt(data[2 * (x / 64)], x % 64) then 1 else 0) + if BitAt(data[2 * (x / 64) + 1], x % 64) then 2 else 0
  }

  function WipeMask(p1: bv64, p2: bv64, gen: nat): bv64 {
    BvOr(BvXor(p1, Spread(gen % 2 == 1)), BvXor(p2, Spread(gen / 2 == 1)))
  }

  /** The mask keeps the bits of the cells that do not hold `gen`. */
  lemma WipeWord(p1: bv64, p2: bv64, gen: nat, k: nat)
    requires k < 64 && 1 <= gen <= 3
    ensures var mask := WipeMask(p1, p2, gen);
            var v := (if BitAt(p1, k) then 1 else 0) + if BitAt(p2, k) then 2 else 0;
            && (BitAt(BvAnd(p1, mask), k) <==> v != gen && BitAt(p1, k))
            && (BitAt(BvAnd(p2, mask), k) <==> v != gen && BitAt(p2, k))
  {
    hide Has, Mask, Spread, BvAnd, BvOr, BvXor, Single;
    var m, g1, g2, mask := Mask(k), Spread(gen % 2 == 1), Spread(gen / 2 == 1), WipeMask(p1, p2, gen);
    MaskSingle(k);
    SpreadAt(gen % 2 == 1, m);
    SpreadAt(gen / 2 == 1, m);
    XorAt(p1, g1, m);
    XorAt(p2, g2, m);
    OrAt(BvXor(p1, g1), BvXor(p2, g2), m);
    AndAt(p1, mask, m);
    AndAt(p2, mask, m);
  }

  /** The value of cell `x` when the words below `p` are wiped. */
  function CellAfter(data: seq<bv64>, x: nat, gen: nat, p: nat): nat
    requires 2 * (x / 64) + 1 < |data|
  {
    if 2 * (x / 64) < p && CellValue(data, x) == gen then 0 else CellValue(data, x)
  }

  lemma WipeCell(d0: seq<bv64>, d: seq<bv64>, d': seq<bv64>, x: nat, gen: nat, p: nat)
    requires 1 <= gen <= 3 && p % 2 == 0 && p + 1 < |d0| == |d| && 2 * (x / 64) + 1 < |d0| && d[p] == d0[p] && d[p + 1] == d0[p + 1]
    requires CellValue(d, x) == CellAfter(d0, x, gen, p)
    requires var mask := WipeMask(d[p], d[p + 1], gen);
             d' == d[p := BvAnd(d[p], mask)][p + 1 := BvAnd(d[p + 1], mask)]
    ensures CellValue(d', x) == CellAfter(d0, x, gen, p + 2)
  {
    hide BitAt, WipeMask, BvAnd;
    WipeWord(d[p], d[p + 1], gen, x % 64);
  }

  lemma MarkedCell(d: seq<bv64>, d': seq<bv64>, x: nat, gen: nat, y: nat)
    requires 1 <= gen <= 3 && 2 * (x / 64) + 1 < |d| && 2 * (y / 64) + 1 < |d|
    requires var w := 2 * (x / 64);
             d' == d[w := WithBit(d[w], x % 64, gen % 2 == 1)][w + 1 := WithBit(d[w + 1], x % 64, gen / 2 == 1)]
    ensures CellValue(d', y) == if y == x then gen else CellValue(d, y)
  {
    hide BitAt, WithBit;
    var w := 2 * (x / 64);
    WithBitAt(d[w], x % 64, gen % 2 == 1, y % 64);
    WithBitAt(d[w + 1], x % 64, gen / 2 == 1, y % 64);
  }

  class RollingBloomFilter {
    const c: Settings
    const data: array<bv64>
    var nEntriesThisGeneration: nat
    var nGeneration: nat

    ghost predicate Valid()
      reads this
    {
      c.nWords > 0 && data.Length == 2 * c.nWords && 1 <= nGeneration <= 3
    }

    ghost function Cells(): (s: seq<nat>)
      requires data.Length == 2 * c.nWords
      reads data
      ensures |s| == 64 * c.nWords
    {
      seq(64 * c.nWords, x requires 0 <= x < 64 * c.nWords reads data => CellValue(data[..], x))
    }

    ghost function Value(): Filter
      requires Valid()
      reads this, data
    {
      Filter(Cells(), nGeneration, nEntriesThisGeneration)
    }

    /** Sizes come from the caller: the filter's bits and hash functions are computed in floating point. */
    constructor (nElements: nat, nHashFuncs: nat, nFilterBits: nat, hash: (nat, Key) -> nat)
      requires nFilterBits > 0
      ensures c == Settings((nElements + 1) / 2, nHashFuncs, (nFilterBits + 63) / 64, hash)
      ensures Valid() && fresh(data) && Value() == Reset(c) && nElements <= 2 * c.perGeneration
    {
      c := Settings((nElements + 1) / 2, nHashFuncs, (nFilterBits + 63) / 64, hash);
      data := new bv64[2 * ((nFilterBits + 63) / 64)](_ => 0);
      nEntriesThisGeneration, nGeneration := 0, 1;
      new;
      assert forall x :: 0 <= x < 64 * c.nWords ==> CellValue(data[..], x) == 0;
    }

    method NextGeneration()
      requires Valid() && nEntriesThisGeneration == c.perGeneration
      modifies this, data
      ensures Valid() && Value() == Advance(c, old(Value()))
    {
      nEntriesThisGeneration := 0;
      nGeneration := nGeneration + 1;
      if nGeneration == 4 {
        nGeneration := 1;
      }
      Wipe();
    }

    /** Wipes the entries that used the present generation number. */
    method Wipe()
      requires Valid()
      modifies data
      ensures Cells() == Wiped(old(Cells()), nGeneration)
    {
      hide BitAt, WipeMask, CellValue, BvAnd;
      ghost var d0 := data[..];
      var p := 0;
      while p < data.Length
        invariant 0 <= p <= data.Length && p % 2 == 0
        invariant forall q :: p <= q < data.Length ==> data[q] == d0[q]
        invariant forall x :: 0 <= x < 64 * c.nWords ==> CellValue(data[..], x) == CellAfter(d0, x, nGeneration, p)
      {
        ghost var d := data[..];
        var p1, p2 := data[p], data[p + 1];
        var mask := WipeMask(p1, p2, nGeneration);
        data[p] := BvAnd(p1, mask);
        data[p + 1] := BvAnd(p2, mask);
        forall x | 0 <= x < 64 * c.nWords ensures CellValue(data[..], x) == CellAfter(d0, x, nGeneration, p + 2) {
          WipeCell(d0, d, data[..], x, nGeneration, p);
        }
        p := p + 2;
      }
    }

    method InsertKey(key: Key)
      requires Valid()
      modifies this, data
      ensures Valid() && Value() == Insert(c, old(Value()), key)
    {
      if nEntriesThisGeneration == c.perGeneration {
        NextGeneration();
      }
      ghost var cells := Cells();
      nEntriesThisGeneration := nEntriesThisGeneration + 1;
      for n := 0 to c.nHashFuncs
        invariant Valid() && nGeneration == Advance(c, old(Value())).gen && nEntriesThisGeneration == Advance(c, old(Value())).entries + 1
        invariant Cells() == Marked(c, cells, key, nGeneration, n)
      {
        MarkCell(CellOf(c, key, n));
      }
    }

    method MarkCell(x: nat)
      requires Valid() && x < 64 * c.nWords
      modifies data
      ensures Cells() == old(Cells())[x := nGeneration]
    {
      hide BitAt, WithBit, CellValue;
      ghost var d0 := data[..];
      var w, k := 2 * (x / 64), x % 64;
      data[w] := WithBit(data[w], k, nGeneration % 2 == 1);
      data[w + 1] := WithBit(data[w + 1], k, nGeneration / 2 == 1);
      forall y | 0 <= y < 64 * c.nWords ensures CellValue(data[..], y) == if y == x then nGeneration else CellValue(d0, y) {
        MarkedCell(d0, data[..], x, nGeneration, y);
      }
    }

    method ContainsKey(key: Key) returns (r: bool)
      requires Valid()
      ensures r == Contains(c, Value(), key)
    {
      for n := 0 to c.nHashFuncs
        invariant forall j :: 0 <= j < n ==> Cells()[CellOf(c, key, j)] != 0
      {
        var x := CellOf(c, key, n);
        var w, k := 2 * (x / 64), x % 64;
        MaskSingle(k);
        OrAt(data[w], data[w + 1], Mask(k));
        if !BitAt(BvOr(data[w], data[w + 1]), k) {
          assert Cells()[x] == 0;
          return false;
        }
      }
      return true;
    }
  }
}
