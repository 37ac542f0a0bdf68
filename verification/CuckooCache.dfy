/** The cuckoo cache object: a table, bit-packed collection flags and epoch flags, all changed in place. */
module CuckooCache {
  import opened Basics
  import opened ByteBits
  import opened Limbs
  import opened Cuckoo

  /** Eight flags to a byte. */
  class BitPackedFlags {
    const mem: array<bv8>

    predicate BitIsSet(s: nat)
      requires s < 8 * mem.Length
      reads mem
    {
      BitAt(mem[s / 8], s % 8)
    }

    ghost function Bits(n: nat): (r: seq<bool>)
      requires n <= 8 * mem.Length
      reads mem
      ensures |r| == n
    {
      seq(n, i requires 0 <= i < n reads mem => BitIsSet(i))
    }

    constructor (size: nat)
      ensures fresh(mem) && 8 * mem.Length >= size && Bits(size) == seq(size, _ => true)
    {
      mem := new bv8[(size + 7) / 8](_ => 0xFF);
      new;
      forall s | 0 <= s < size ensures BitIsSet(s) {
        OrBit(0, 0, s % 8);
      }
    }

    method BitSet(s: nat, ghost n: nat)
      requires s < n <= 8 * mem.Length
      modifies mem
      ensures Bits(n) == old(Bits(n))[s := true]
    {
      ghost var m := mem[..];
      mem[s / 8] := mem[s / 8] | Mask(s % 8);
      forall t | 0 <= t < n ensures BitIsSet(t) == (t == s || BitAt(m[t / 8], t % 8)) {
        OrBit(m[s / 8], s % 8, t % 8);
      }
    }

    method BitUnset(s: nat, ghost n: nat)
      requires s < n <= 8 * mem.Length
      modifies mem
      ensures Bits(n) == old(Bits(n))[s := false]
    {
      hide BitAt, Mask;
      ghost var m := mem[..];
      mem[s / 8] := mem[s / 8] & !Mask(s % 8);
      forall t | 0 <= t < n ensures BitIsSet(t) == (t != s && BitAt(m[t / 8], t % 8)) {
        AndNotBit(m[s / 8], s % 8, t % 8);
      }
    }
  }

  function EpochSize(size: nat): nat { Max(1, 45 * size % BASE / 100) as nat }

  /** An epoch is 45% of the table exactly while that product fits in 32 bits; above, it is less. */
  lemma EpochExactly(size: nat)
    ensures EpochSize(size) == Max(1, 45 * size / 100) <==> 45 * size < BASE
    ensures 45 * size >= BASE ==> EpochSize(size) < 45 * size / 100
  {
    var n := 45 * size;
    if n >= BASE {
      assert n % BASE <= n - BASE;
    }
  }

  /** A table of 2^28 elements. */
  lemma EpochForExample()
    ensures EpochSize(268435456) == 34896609 && 45 * 268435456 / 100 == 120795955
  {
  }

  class Cache<T(==)> {
    const c: Config<T>
    const table: array<T>
    const collectionFlags: BitPackedFlags
    const epochFlags: array<bool>
    var epochHeuristicCounter: nat

    ghost predicate Valid() {
      && c.size >= 2 && table.Length == epochFlags.Length == c.size && 8 * collectionFlags.mem.Length >= c.size
      && var a: object, b: object, d: object := table, epochFlags, collectionFlags.mem; a != b && a != d && b != d
    }

    ghost function Value(): (s: State<T, bool>)
      requires Valid()
      reads this, table, epochFlags, collectionFlags.mem
      ensures Shape(c, s)
    {
      State(table[..], collectionFlags.Bits(c.size), epochFlags[..], epochHeuristicCounter)
    }

    /** `depthLimit` is the rounded logarithm that the caller computed. */
    constructor (newSize: nat, depthLimit: nat, hash: (nat, T) -> nat, default_: T)
      ensures Valid() && fresh(table) && fresh(epochFlags) && fresh(collectionFlags.mem)
      ensures c == Config(Max(2, newSize), EpochSize(Max(2, newSize)), depthLimit, hash, default_)
      ensures Value() == Setup(c)
    {
      var size: nat := Max(2, newSize);
      c := Config(size, EpochSize(size), depthLimit, hash, default_);
      table := new T[size](_ => default_);
      collectionFlags := new BitPackedFlags(size);
      epochFlags := new bool[size](_ => false);
      epochHeuristicCounter := EpochSize(size);
    }

    method EpochCheck()
      requires Valid()
      modifies this, epochFlags, collectionFlags.mem
      ensures Value() == Cuckoo.EpochCheck(c, old(Value()))
    {
      if epochHeuristicCounter != 0 {
        epochHeuristicCounter := epochHeuristicCounter - 1;
        return;
      }
      var epochUnusedCount := CountRecent();
      if epochUnusedCount >= c.epochSize {
        Age();
        epochHeuristicCounter := c.epochSize;
      } else {
        epochHeuristicCounter := Max(1, Max(c.epochSize / 16, c.epochSize - epochUnusedCount));
      }
    }

    method CountRecent() returns (n: nat)
      requires Valid()
      ensures n == RecentCount(Value().dead, Value().recent, c.size)
    {
      hide BitAt;
      n := 0;
      for i := 0 to c.size
        invariant n == RecentCount(Value().dead, Value().recent, i)
      {
        if epochFlags[i] && !collectionFlags.BitIsSet(i) {
          n := n + 1;
        }
      }
    }

    method Age()
      requires Valid()
      modifies epochFlags, collectionFlags.mem
      ensures Value() == old(Value()).(dead := TurnOver(old(Value()).dead, old(Value()).recent), recent := seq(c.size, _ => false))
    {
      ghost var s := Value();
      for i := 0 to c.size
        invariant forall j :: 0 <= j < c.size ==> epochFlags[j] == (j >= i && s.recent[j])
        invariant forall j :: 0 <= j < c.size ==> Value().dead[j] == (s.dead[j] || (j < i && !s.recent[j]))
      {
        if epochFlags[i] {
          epochFlags[i] := false;
        } else {
          collectionFlags.BitSet(i, c.size);
        }
      }
    }

    /** `table[loc] = e; please_keep(loc); epoch_flags[loc] = epoch` */
    method PutAt(loc: nat, e: T, epoch: bool)
      requires Valid() && loc < c.size
      modifies table, epochFlags, collectionFlags.mem
      ensures Value() == Put(old(Value()), loc, e, epoch)
    {
      table[loc] := e;
      collectionFlags.BitUnset(loc, c.size);
      epochFlags[loc] := epoch;
    }

    method Find(e: T) returns (k: nat)
      requires Valid()
      ensures k == FindLoc(c, Value().table, e, 0)
    {
      k := 0;
      while k < WAYS
        invariant k <= WAYS && FindLoc(c, Value().table, e, 0) == FindLoc(c, Value().table, e, k)
      {
        if table[Loc(c, e, k)] == e {
          return;
        }
        k := k + 1;
      }
    }

    method FindFree(e: T) returns (k: nat)
      requires Valid()
      ensures k == FreeLoc(c, Value().dead, e, 0)
    {
      k := 0;
      while k < WAYS
        invariant k <= WAYS && FreeLoc(c, Value().dead, e, 0) == FreeLoc(c, Value().dead, e, k)
      {
        if collectionFlags.BitIsSet(Loc(c, e, k)) {
          return;
        }
        k := k + 1;
      }
    }

    method Insert(e0: T)
      requires Valid()
      modifies this, table, epochFlags, collectionFlags.mem
      ensures Value() == Cuckoo.Insert(c, old(Value()), e0).s
    {
      hide Displace, FindLoc, FreeLoc, Loc, PlaceNumber, Put, Cuckoo.EpochCheck;
      EpochCheck();
      ghost var s1 := Value();
      var k := Find(e0);
      if k < WAYS {
        PutAt(Loc(c, e0, k), e0, true);
        return;
      }
      var e, lastLoc, lastEpoch := e0, -1, true;
      var depth: nat := 0;
      while depth < c.depthLimit
        invariant depth <= c.depthLimit
        invariant Displace(c, Value(), e, lastEpoch, lastLoc, c.depthLimit - depth) == Displace(c, s1, e0, true, -1, c.depthLimit)
      {
        DisplaceNext(c, Value(), e, lastEpoch, lastLoc, c.depthLimit - depth);
        k := FindFree(e);
        if k < WAYS {
          PutAt(Loc(c, e, k), e, lastEpoch);
          return;
        }
        lastLoc := Loc(c, e, (1 + PlaceNumber(c, e, lastLoc, 0)) % WAYS);
        var out, epoch := table[lastLoc], epochFlags[lastLoc];
        SwapIn(lastLoc, e, lastEpoch);
        e, lastEpoch := out, epoch;
        depth := depth + 1;
      }
      DisplaceNext(c, Value(), e, lastEpoch, lastLoc, 0);
    }

    /** The swap leaves the collection flag alone: all places of the element are in use. */
    method SwapIn(loc: nat, e: T, epoch: bool)
      requires Valid() && loc < c.size && !Value().dead[loc]
      modifies table, epochFlags
      ensures Value() == Put(old(Value()), loc, e, epoch)
    {
      ghost var s := Value();
      table[loc] := e;
      epochFlags[loc] := epoch;
      assert s.dead[loc := false] == s.dead;
    }

    method Contains(e: T, erase: bool) returns (r: bool)
      requires Valid()
      modifies collectionFlags.mem
      ensures r == Cuckoo.Contains(c, old(Value()), e) && Value() == Look(c, old(Value()), e, erase)
    {
      var k := Find(e);
      if k < WAYS {
        if erase {
          collectionFlags.BitSet(Loc(c, e, k), c.size);
        }
        return true;
      }
      return false;
    }
  }

  /** One turn of the displacement loop. */
  lemma DisplaceNext<T, F>(c: Config<T>, s: State<T, F>, e: T, f: F, last: int, depth: nat)
    requires Shape(c, s)
    ensures depth == 0 ==> Displace(c, s, e, f, last, depth).s == s
    ensures depth > 0 ==>
              var k := FreeLoc(c, s.dead, e, 0);
              if k < WAYS then Displace(c, s, e, f, last, depth).s == Put(s, Loc(c, e, k), e, f)
              else
                var loc := Loc(c, e, (1 + PlaceNumber(c, e, last, 0)) % WAYS);
                !s.dead[loc] &&
                Displace(c, s, e, f, last, depth) == Displace(c, Put(s, loc, e, f), s.table[loc], s.recent[loc], loc, depth - 1)
  {
  }
}
