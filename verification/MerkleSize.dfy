/**
 The size of a serialized partial Merkle tree.  The documented bound of
 10 + ceil(32.25 N) bytes for N hashes rests on the bound on flag bits, which
 nodes with a single child break, and on length prefixes of at most three bytes.
 */
module MerkleSize {
  import opened Powers
  import opened BitStream
  import opened Gcs
  import opened MerkleBlock

  // ------------------------------------------------------------------
  // The bound
  // ------------------------------------------------------------------

  /** The bytes that the length of a vector takes. */
  function PrefixSize(n: nat): nat { if n < 253 then 1 else if n < 0x1_0000 then 3 else if n < 0x1_0000_0000 then 5 else 9 }

  lemma PrefixIs(n: nat)
    requires n < WORD
    ensures PrefixSize(n) == |CompactSize(n)|
  {
    hide LittleEndian;
  }

  /** The transaction count, the hashes and the flag bytes, each vector behind its length. */
  function Size(b: Branch): nat {
    var nBytes := ByteCount(|b.bits|);
    4 + PrefixSize(|b.hashes|) + 32 * |b.hashes| + PrefixSize(nBytes) + nBytes
  }

  /** 10 + ceil(32.25 N) */
  function Promised(N: nat): nat { 10 + 32 * N + Quarter(N) }

  function Quarter(N: nat): nat { (N + 3) / 4 }

  /** `k` nodes with a single child leave the bits of `N` hashes within the bytes that the prefixes leave free. */
  predicate Fits(N: nat, k: nat) {
    var bits, q := 2 * N - 1 + k, Quarter(N);
    if N < 253 then bits <= 8 * (q + 4)
    else N < 0x1_0000 && (bits <= 8 * q || (bits <= 8 * (q + 2) && bits <= 8 * 252))
  }

  lemma SizeOf(N: nat, k: nat)
    requires N > 0
    ensures var nBytes := ByteCount(2 * N - 1 + k);
            4 + PrefixSize(N) + 32 * N + PrefixSize(nBytes) + nBytes <= Promised(N) <==> Fits(N, k)
  {
  }

  /** The promised size holds exactly when the only children fit. */
  lemma SizeExactly(H: PairHash, vTxid: seq<Hash>, vMatch: seq<bool>)
    requires 0 < |vTxid| == |vMatch|
    ensures Lo(TreeHeight(|vTxid|), 0) < |vTxid|
    ensures var n := |vTxid|;
            var b := Build(H, TreeHeight(n), 0, vTxid, vMatch);
            Size(b) <= Promised(|b.hashes|) <==> Fits(|b.hashes|, OnlyChildren(n, vMatch, TreeHeight(n), 0))
  {
    hide Build, OnlyChildren, TreeHeight, Lo, Hi, CalcTreeWidth, Fits, Promised, PrefixSize;
    RootCovers(|vTxid|);
    BranchSize(H, vTxid, vMatch, TreeHeight(|vTxid|), 0);
    BitCount(H, vTxid, vMatch, TreeHeight(|vTxid|), 0);
    SizeOf(|Build(H, TreeHeight(|vTxid|), 0, vTxid, vMatch).hashes|, OnlyChildren(|vTxid|, vMatch, TreeHeight(|vTxid|), 0));
  }

  lemma NoneFit(N: nat)
    requires N > 0
    ensures Fits(N, 0) <==> N < 0x1_0000
  {
  }

  /** Where the bound on flag bits holds, so does the size, up to 65535 hashes and no further. */
  lemma SizeWithin(H: PairHash, vTxid: seq<Hash>, vMatch: seq<bool>)
    requires 0 < |vTxid| == |vMatch| && !OddEndMatched(|vTxid|, vMatch, TreeHeight(|vTxid|))
    ensures Lo(TreeHeight(|vTxid|), 0) < |vTxid|
    ensures var b := Build(H, TreeHeight(|vTxid|), 0, vTxid, vMatch);
            Size(b) <= Promised(|b.hashes|) <==> |b.hashes| < 0x1_0000
  {
    hide Build, OnlyChildren, TreeHeight, Lo, Hi, CalcTreeWidth, Fits, Promised, Size, OddEndMatched;
    var n := |vTxid|;
    SizeExactly(H, vTxid, vMatch);
    BranchSize(H, vTxid, vMatch, TreeHeight(n), 0);
    RootIsLast(n);
    LastNode(n, vMatch, TreeHeight(n));
    NoneFit(|Build(H, TreeHeight(n), 0, vTxid, vMatch).hashes|);
  }

  lemma RootIsLast(n: nat)
    requires n > 0
    ensures CalcTreeWidth(n, TreeHeight(n)) == 1
  {
    RootCovers(n);
    NodeExists(n, TreeHeight(n), 0);
  }

  // ------------------------------------------------------------------
  // Small trees
  // ------------------------------------------------------------------

  /** On each level only the last node can have a single child. */
  lemma {:induction false} FewOnlyChildren(n: nat, vMatch: seq<bool>, height: nat, pos: nat)
    requires Lo(height, pos) < n == |vMatch|
    ensures OnlyChildren(n, vMatch, height, pos) <= height
  {
    hide AnyMatch, Lo, CalcTreeWidth;
    if height > 0 && AnyMatch(vMatch, Lo(height, pos), Hi(n, height, pos)) {
      NodeSplit(n, height, pos);
      FewOnlyChildren(n, vMatch, height - 1, 2 * pos);
      if 2 * pos + 1 < CalcTreeWidth(n, height - 1) {
        FullNode(n, vMatch, height - 1, 2 * pos);
        FewOnlyChildren(n, vMatch, height - 1, 2 * pos + 1);
      }
    }
  }

  lemma HeightBound(n: nat, k: nat)
    requires n <= Pow(2, k)
    ensures TreeHeight(n) <= k
  {
    NodeExists(n, k, 1);
  }

  lemma FewFit(N: nat, k: nat)
    requires 0 < N < 253 && k <= 32
    ensures Fits(N, k)
  {
  }

  /** With a transaction count of 32 bits, the size holds for fewer than 253 hashes, whatever is matched. */
  lemma SizeSmall(H: PairHash, vTxid: seq<Hash>, vMatch: seq<bool>)
    requires 0 < |vTxid| == |vMatch| <= Pow(2, 32)
    ensures Lo(TreeHeight(|vTxid|), 0) < |vTxid|
    ensures var b := Build(H, TreeHeight(|vTxid|), 0, vTxid, vMatch); |b.hashes| < 253 ==> Size(b) <= Promised(|b.hashes|)
  {
    hide Build, OnlyChildren, TreeHeight, Lo, Hi, CalcTreeWidth, Fits, Promised, Size, Pow;
    var n := |vTxid|;
    SizeExactly(H, vTxid, vMatch);
    BranchSize(H, vTxid, vMatch, TreeHeight(n), 0);
    HeightBound(n, 32);
    FewOnlyChildren(n, vMatch, TreeHeight(n), 0);
    var N := |Build(H, TreeHeight(n), 0, vTxid, vMatch).hashes|;
    if N < 253 {
      FewFit(N, OnlyChildren(n, vMatch, TreeHeight(n), 0));
    }
  }

  // ------------------------------------------------------------------
  // Trees that are larger
  // ------------------------------------------------------------------

  function AllTrue(n: nat): (b: seq<bool>)
    ensures |b| == n
  {
    seq(n, _ => true)
  }

  lemma SomeTrue(n: nat, lo: nat, hi: nat)
    requires lo < hi <= n
    ensures AnyMatch(AllTrue(n), lo, hi)
  {
    assert AllTrue(n)[lo];
  }

  /** With everything matched every leaf is stored. */
  lemma {:induction false} AllStored(H: PairHash, vTxid: seq<Hash>, height: nat, pos: nat)
    requires Lo(height, pos) < |vTxid|
    ensures var n := |vTxid|; |Build(H, height, pos, vTxid, AllTrue(n)).hashes| == Hi(n, height, pos) - Lo(height, pos)
  {
    hide CalcHash, CalcTreeWidth, AnyMatch, AllTrue, Lo;
    var n := |vTxid|;
    EndsAbove(n, height, pos);
    SomeTrue(n, Lo(height, pos), Hi(n, height, pos));
    if height == 0 {
      LeafSpan(n, pos);
    } else {
      NodeSplit(n, height, pos);
      AllStored(H, vTxid, height - 1, 2 * pos);
      if 2 * pos + 1 < CalcTreeWidth(n, height - 1) {
        AllStored(H, vTxid, height - 1, 2 * pos + 1);
      }
    }
  }

  lemma LeafSpan(n: nat, pos: nat)
    requires Lo(0, pos) < n
    ensures Hi(n, 0, pos) == Lo(0, pos) + 1
  {
  }

  lemma LastPlace(m: nat, h: nat)
    requires h <= m
    ensures Lo(h, Pow(2, m - h)) == Pow(2, m)
  {
    PowAdd(2, m - h, h);
  }

  /** One more than a power of two: the last node of each level has a single child. */
  lemma {:induction false} OnlyChildrenBelow(m: nat, h: nat)
    requires h <= m
    ensures Lo(h, Pow(2, m - h)) < Pow(2, m) + 1
    ensures OnlyChildren(Pow(2, m) + 1, AllTrue(Pow(2, m) + 1), h, Pow(2, m - h)) == h
  {
    hide CalcTreeWidth, Lo, Pow;
    var n, pos := Pow(2, m) + 1, Pow(2, m - h);
    LastPlace(m, h);
    assert AllTrue(n)[Pow(2, m)];
    if h > 0 {
      PowNext(m - h);
      NodeSplit(n, h, pos);
      LastPlace(m, h - 1);
      OneAfter(h - 1, 2 * pos);
      NodeExists(n, h - 1, 2 * pos + 1);
      OnlyChildrenBelow(m, h - 1);
      EndsAbove(n, h, pos);
    }
  }

  lemma PowNext(k: nat)
    ensures Pow(2, k + 1) == 2 * Pow(2, k)
  {
  }

  lemma OneAfter(height: nat, pos: nat)
    ensures Lo(height, pos + 1) == Lo(height, pos) + Pow(2, height) > Lo(height, pos)
  {
  }

  lemma EndsAbove(n: nat, height: nat, pos: nat)
    requires Lo(height, pos) < n
    ensures Lo(height, pos) < Hi(n, height, pos)
  {
    OneAfter(height, pos);
  }

  lemma RootHeight(m: nat)
    ensures TreeHeight(Pow(2, m) + 1) == m + 1
  {
    hide CalcTreeWidth;
    var n := Pow(2, m) + 1;
    HeightBound(n, m + 1);
    NodeExists(n, m, 1);
    NodeExists(n, TreeHeight(n), 1);
    if TreeHeight(n) <= m {
      PowMono(2, TreeHeight(n), m);
    }
  }

  lemma PowerShape(m: nat)
    requires m > 0
    ensures var n := Pow(2, m) + 1;
            && TreeHeight(n) == m + 1 && Lo(m + 1, 0) < n
            && OnlyChildren(n, AllTrue(n), m + 1, 0) == m
  {
    hide CalcTreeWidth, Lo, Pow, TreeHeight, AnyMatch, AllTrue;
    var n := Pow(2, m) + 1;
    RootHeight(m);
    RootCovers(n);
    SomeTrue(n, 0, n);
    NodeSplit(n, m + 1, 0);
    PowZero(2);
    LastPlace(m, m);
    NodeExists(n, m, 1);
    FullNode(n, AllTrue(n), m, 0);
    OnlyChildrenBelow(m, m);
  }

  lemma {:induction false} ManyMisfit(m: nat)
    requires m >= 10
    ensures !Fits(Pow(2, m) + 1, m)
  {
    PowAdd(2, 10, m - 10);
    PowAdd(2, 5, 5);
    var t := Pow(2, m - 10);
    assert Pow(2, 5) == 32 && Pow(2, m) == 1024 * t;
    assert Quarter(1024 * t + 1) == 256 * t + 1;
  }

  /** One more than a power of two, from 1025 transactions on, and all matched: the size is above the promised one. */
  lemma SizeFails(H: PairHash, vTxid: seq<Hash>, m: nat)
    requires m >= 10 && |vTxid| == Pow(2, m) + 1
    ensures Lo(TreeHeight(|vTxid|), 0) < |vTxid|
    ensures var b := Build(H, TreeHeight(|vTxid|), 0, vTxid, AllTrue(|vTxid|));
            |b.hashes| == |vTxid| && |b.bits| == 2 * |vTxid| - 1 + m && Size(b) > Promised(|b.hashes|)
  {
    hide Build, OnlyChildren, TreeHeight, Lo, Hi, CalcTreeWidth, Fits, Promised, Size, Pow, AllTrue;
    var n := |vTxid|;
    PowerShape(m);
    RootCovers(n);
    AllStored(H, vTxid, TreeHeight(n), 0);
    BitCount(H, vTxid, AllTrue(n), TreeHeight(n), 0);
    SizeExactly(H, vTxid, AllTrue(n));
    ManyMisfit(m);
  }
}
