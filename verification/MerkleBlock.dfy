/**
 Partial Merkle trees (BIP 37): a block's matched transaction ids with the
 hashes that authenticate them.  `Build` and `Extract` are the two depth-first
 traversals as functions of the tree; the class `PartialMerkleTree` runs them in
 place on its bit and hash vectors.  The pair hash is a parameter; where a
 result needs it to be injective it says so.
 */
module MerkleBlock {
  import opened Basics
  import opened ByteBits
  import opened Powers

  type Hash = nat
  type PairHash = (Hash, Hash) -> Hash

  const NULL_HASH: Hash := 0

  ghost predicate Injective(H: PairHash) {
    forall a, b, c, d :: H(a, b) == H(c, d) ==> a == c && b == d
  }

  // ------------------------------------------------------------------
  // The shape of the tree over n transactions
  // ------------------------------------------------------------------

  /** The number of nodes at `height`. */
  function CalcTreeWidth(n: nat, height: nat): nat { (n + Pow(2, height) - 1) / Pow(2, height) }

  /** Where the leaves under a node start, and where they end. */
  function Lo(height: nat, pos: nat): nat { pos * Pow(2, height) }

  function Hi(n: nat, height: nat, pos: nat): nat {
    var end := (pos + 1) * Pow(2, height);
    if end <= n then end else n
  }

  lemma DivAbove(a: nat, p: nat, q: nat)
    requires p > 0
    ensures q < a / p <==> (q + 1) * p <= a
  {
    var d, m := a / p, a % p;
    assert a == d * p + m && 0 <= m < p;
    if q < d {
      assert (q + 1) * p <= d * p;
    } else {
      assert (q + 1) * p >= (d + 1) * p;
    }
  }

  /** A node exists exactly when some leaf lies under it. */
  lemma NodeExists(n: nat, height: nat, pos: nat)
    ensures pos < CalcTreeWidth(n, height) <==> Lo(height, pos) < n
  {
    var p := Pow(2, height);
    DivAbove(n + p - 1, p, pos);
    assert (pos + 1) * p == pos * p + p;
  }

  /** The leaves under a node are those under its left child, then those under its right child, if any. */
  lemma NodeSplit(n: nat, height: nat, pos: nat)
    requires height > 0 && Lo(height, pos) < n
    ensures Lo(height - 1, 2 * pos) == Lo(height, pos) < Hi(n, height - 1, 2 * pos)
    ensures if 2 * pos + 1 < CalcTreeWidth(n, height - 1) then
              && Lo(height - 1, 2 * pos + 1) == Hi(n, height - 1, 2 * pos) < n
              && Hi(n, height - 1, 2 * pos) < Hi(n, height - 1, 2 * pos + 1) == Hi(n, height, pos)
            else
              Hi(n, height - 1, 2 * pos) == Hi(n, height, pos)
  {
    var p := Pow(2, height - 1);
    assert Pow(2, height) == 2 * p;
    assert (2 * pos) * p == pos * (2 * p);
    assert (2 * pos + 1) * p == pos * (2 * p) + p;
    assert (2 * pos + 2) * p == (pos + 1) * (2 * p);
    NodeExists(n, height - 1, 2 * pos + 1);
  }

  /** The lowest height, from `h` up, at which the tree has one node. */
  function HeightFrom(n: nat, h: nat): (height: nat)
    ensures height >= h && CalcTreeWidth(n, height) <= 1 && forall g :: h <= g < height ==> CalcTreeWidth(n, g) > 1
    decreases n - Pow(2, h)
  {
    NodeExists(n, h, 1);
    if CalcTreeWidth(n, h) <= 1 then h else HeightFrom(n, h + 1)
  }

  function TreeHeight(n: nat): nat { HeightFrom(n, 0) }

  method CalcTreeHeight(n: nat) returns (height: nat)
    ensures height == TreeHeight(n)
  {
    height := 0;
    while CalcTreeWidth(n, height) > 1
      invariant HeightFrom(n, height) == TreeHeight(n)
      decreases n - Pow(2, height)
    {
      NodeExists(n, height, 1);
      height := height + 1;
    }
  }

  /** At the tree's height the root covers every leaf. */
  lemma RootCovers(n: nat)
    requires n > 0
    ensures Lo(TreeHeight(n), 0) == 0 && Hi(n, TreeHeight(n), 0) == n
  {
    NodeExists(n, TreeHeight(n), 1);
  }

  // ------------------------------------------------------------------
  // The full tree and the two traversals
  // ------------------------------------------------------------------

  /** The hash of a node; at leaf level the txids themselves. */
  function CalcHash(H: PairHash, height: nat, pos: nat, vTxid: seq<Hash>): Hash
    requires Lo(height, pos) < |vTxid|
  {
    if height == 0 then vTxid[pos]
    else
      NodeSplit(|vTxid|, height, pos);
      var left := CalcHash(H, height - 1, 2 * pos, vTxid);
      var right := if 2 * pos + 1 < CalcTreeWidth(|vTxid|, height - 1)
                   then CalcHash(H, height - 1, 2 * pos + 1, vTxid) else left;
      H(left, right)
  }

  predicate AnyMatch(vMatch: seq<bool>, lo: nat, hi: nat)
    requires hi <= |vMatch|
  {
    exists p :: lo <= p < hi && vMatch[p]
  }

  /** What one subtree contributes: flag bits and hashes in depth-first order. */
  datatype Branch = Branch(bits: seq<bool>, hashes: seq<Hash>)

  function Build(H: PairHash, height: nat, pos: nat, vTxid: seq<Hash>, vMatch: seq<bool>): Branch
    requires Lo(height, pos) < |vTxid| == |vMatch|
  {
    var flag := AnyMatch(vMatch, Lo(height, pos), Hi(|vTxid|, height, pos));
    if height == 0 || !flag then
      Branch([flag], [CalcHash(H, height, pos, vTxid)])
    else
      NodeSplit(|vTxid|, height, pos);
      var left := Build(H, height - 1, 2 * pos, vTxid, vMatch);
      var right := if 2 * pos + 1 < CalcTreeWidth(|vTxid|, height - 1)
                   then Build(H, height - 1, 2 * pos + 1, vTxid, vMatch) else Branch([], []);
      Branch([flag] + left.bits + right.bits, left.hashes + right.hashes)
  }

  /** The result of reading one subtree: its hash, the new cursors, the matches found, and whether it was bad. */
  datatype Parse = Parse(hash: Hash, nBits: nat, nHashes: nat, matched: seq<Hash>, indices: seq<nat>, bad: bool)

  function Extract(H: PairHash, n: nat, vBits: seq<bool>, vHash: seq<Hash>, height: nat, pos: nat, nBits: nat, nHashes: nat): Parse
    decreases height
  {
    if nBits >= |vBits| then Parse(NULL_HASH, nBits, nHashes, [], [], true)
    else if height == 0 || !vBits[nBits] then
      if nHashes >= |vHash| then Parse(NULL_HASH, nBits + 1, nHashes, [], [], true)
      else if height == 0 && vBits[nBits] then
        Parse(vHash[nHashes], nBits + 1, nHashes + 1, [vHash[nHashes]], [pos], false)
      else
        Parse(vHash[nHashes], nBits + 1, nHashes + 1, [], [], false)
    else
      var l := Extract(H, n, vBits, vHash, height - 1, 2 * pos, nBits + 1, nHashes);
      if 2 * pos + 1 < CalcTreeWidth(n, height - 1) then
        var r := Extract(H, n, vBits, vHash, height - 1, 2 * pos + 1, l.nBits, l.nHashes);
        Parse(H(l.hash, r.hash), r.nBits, r.nHashes, l.matched + r.matched, l.indices + r.indices,
              l.bad || r.bad || r.hash == l.hash)
      else
        l.(hash := H(l.hash, l.hash))
  }

  /** The function at one node, over the results of its children. */
  lemma ExtractNode(H: PairHash, n: nat, vBits: seq<bool>, vHash: seq<Hash>, height: nat, pos: nat, nBits: nat, nHashes: nat)
    ensures var p := Extract(H, n, vBits, vHash, height, pos, nBits, nHashes);
            if nBits >= |vBits| then p == Parse(NULL_HASH, nBits, nHashes, [], [], true)
            else if height == 0 || !vBits[nBits] then
              if nHashes >= |vHash| then p == Parse(NULL_HASH, nBits + 1, nHashes, [], [], true)
              else
                var matched := height == 0 && vBits[nBits];
                p == Parse(vHash[nHashes], nBits + 1, nHashes + 1, if matched then [vHash[nHashes]] else [], if matched then [pos] else [], false)
            else
              var l := Extract(H, n, vBits, vHash, height - 1, 2 * pos, nBits + 1, nHashes);
              if 2 * pos + 1 < CalcTreeWidth(n, height - 1) then
                var r := Extract(H, n, vBits, vHash, height - 1, 2 * pos + 1, l.nBits, l.nHashes);
                p == Parse(H(l.hash, r.hash), r.nBits, r.nHashes, l.matched + r.matched, l.indices + r.indices,
                           l.bad || r.bad || r.hash == l.hash)
              else
                p == l.(hash := H(l.hash, l.hash))
  {
    hide CalcTreeWidth;
  }

  // ------------------------------------------------------------------
  // Soundness: accepted proofs report only what is in the block
  // ------------------------------------------------------------------

  /** Every reported id is the block's id at the reported index, and the indices increase within the range. */
  ghost predicate Genuine(matched: seq<Hash>, indices: seq<nat>, vTxid: seq<Hash>, lo: nat, hi: nat) {
    && |matched| == |indices|
    && hi <= |vTxid|
    && (forall i :: 0 <= i < |indices| ==> lo <= indices[i] < hi && matched[i] == vTxid[indices[i]])
    && (forall i, j :: 0 <= i < j < |indices| ==> indices[i] < indices[j])
  }

  lemma {:induction false} ExtractSound(H: PairHash, vTxid: seq<Hash>, vBits: seq<bool>, vHash: seq<Hash>,
                                        height: nat, pos: nat, nBits: nat, nHashes: nat)
    requires Injective(H) && Lo(height, pos) < |vTxid|
    requires Extract(H, |vTxid|, vBits, vHash, height, pos, nBits, nHashes).hash == CalcHash(H, height, pos, vTxid)
    ensures var r := Extract(H, |vTxid|, vBits, vHash, height, pos, nBits, nHashes);
            Genuine(r.matched, r.indices, vTxid, Lo(height, pos), Hi(|vTxid|, height, pos))
    decreases height
  {
    hide CalcTreeWidth, Genuine, Lo, Hi;
    var n := |vTxid|;
    if nBits >= |vBits| || height == 0 || !vBits[nBits] {
      LeafSound(H, vTxid, vBits, vHash, height, pos, nBits, nHashes);
    } else {
      NodeSplit(n, height, pos);
      var l := Extract(H, n, vBits, vHash, height - 1, 2 * pos, nBits + 1, nHashes);
      ExtractSound(H, vTxid, vBits, vHash, height - 1, 2 * pos, nBits + 1, nHashes);
      if 2 * pos + 1 < CalcTreeWidth(n, height - 1) {
        var r := Extract(H, n, vBits, vHash, height - 1, 2 * pos + 1, l.nBits, l.nHashes);
        ExtractSound(H, vTxid, vBits, vHash, height - 1, 2 * pos + 1, l.nBits, l.nHashes);
        GenuineJoin(l, r, vTxid, Lo(height, pos), Hi(n, height - 1, 2 * pos), Hi(n, height, pos));
      }
    }
  }

  lemma LeafSound(H: PairHash, vTxid: seq<Hash>, vBits: seq<bool>, vHash: seq<Hash>,
                  height: nat, pos: nat, nBits: nat, nHashes: nat)
    requires Lo(height, pos) < |vTxid| && (nBits >= |vBits| || height == 0 || !vBits[nBits])
    requires Extract(H, |vTxid|, vBits, vHash, height, pos, nBits, nHashes).hash == CalcHash(H, height, pos, vTxid)
    ensures var r := Extract(H, |vTxid|, vBits, vHash, height, pos, nBits, nHashes);
            Genuine(r.matched, r.indices, vTxid, Lo(height, pos), Hi(|vTxid|, height, pos))
  {
  }

  /** Matches of the left subtree before those of the right one. */
  lemma GenuineJoin(l: Parse, r: Parse, vTxid: seq<Hash>, lo: nat, mid: nat, hi: nat)
    requires Genuine(l.matched, l.indices, vTxid, lo, mid) && Genuine(r.matched, r.indices, vTxid, mid, hi) && lo <= mid <= hi
    ensures Genuine(l.matched + r.matched, l.indices + r.indices, vTxid, lo, hi)
  {
  }

  // ------------------------------------------------------------------
  // Completeness: what was built is read back
  // ------------------------------------------------------------------

  ghost predicate Distinct(vTxid: seq<Hash>) {
    forall i, j :: 0 <= i < j < |vTxid| ==> vTxid[i] != vTxid[j]
  }

  /** With distinct txids no two nodes of one height have the same hash. */
  lemma {:induction false} NodesDistinct(H: PairHash, vTxid: seq<Hash>, height: nat, p: nat, q: nat)
    requires Injective(H) && Distinct(vTxid)
    requires Lo(height, p) < |vTxid| && Lo(height, q) < |vTxid|
    requires CalcHash(H, height, p, vTxid) == CalcHash(H, height, q, vTxid)
    ensures p == q
  {
    if height == 0 {
      assert Pow(2, 0) == 1;
    } else {
      NodeSplit(|vTxid|, height, p);
      NodeSplit(|vTxid|, height, q);
      NodesDistinct(H, vTxid, height - 1, 2 * p, 2 * q);
    }
  }

  /** The matched ids, and the matched indices, of a range of leaves in order. */
  function MatchedIds(vTxid: seq<Hash>, vMatch: seq<bool>, lo: nat, hi: nat): seq<Hash>
    requires lo <= hi <= |vTxid| == |vMatch|
    decreases hi - lo
  {
    if lo == hi then []
    else MatchedIds(vTxid, vMatch, lo, hi - 1) + (if vMatch[hi - 1] then [vTxid[hi - 1]] else [])
  }

  function MatchedIndices(vMatch: seq<bool>, lo: nat, hi: nat): seq<nat>
    requires lo <= hi <= |vMatch|
    decreases hi - lo
  {
    if lo == hi then []
    else MatchedIndices(vMatch, lo, hi - 1) + (if vMatch[hi - 1] then [hi - 1] else [])
  }

  lemma {:induction false} MatchedConcat(vTxid: seq<Hash>, vMatch: seq<bool>, lo: nat, mid: nat, hi: nat)
    requires lo <= mid <= hi <= |vTxid| == |vMatch|
    ensures MatchedIds(vTxid, vMatch, lo, hi) == MatchedIds(vTxid, vMatch, lo, mid) + MatchedIds(vTxid, vMatch, mid, hi)
    ensures MatchedIndices(vMatch, lo, hi) == MatchedIndices(vMatch, lo, mid) + MatchedIndices(vMatch, mid, hi)
    decreases hi - mid
  {
    if mid < hi {
      MatchedConcat(vTxid, vMatch, lo, mid, hi - 1);
    }
  }

  lemma AnyMatchNext(vMatch: seq<bool>, lo: nat, hi: nat)
    requires lo < hi <= |vMatch|
    ensures AnyMatch(vMatch, lo, hi) <==> vMatch[hi - 1] || AnyMatch(vMatch, lo, hi - 1)
  {
    if vMatch[hi - 1] {
      assert lo <= hi - 1 < hi;
    }
  }

  lemma NoneMatch(vMatch: seq<bool>, at: nat)
    requires at <= |vMatch|
    ensures !AnyMatch(vMatch, at, at)
  {
  }

  lemma {:induction false} NothingMatched(vTxid: seq<Hash>, vMatch: seq<bool>, lo: nat, hi: nat)
    requires lo <= hi <= |vTxid| == |vMatch|
    ensures |MatchedIds(vTxid, vMatch, lo, hi)| == |MatchedIndices(vMatch, lo, hi)|
    ensures MatchedIndices(vMatch, lo, hi) == [] <==> !AnyMatch(vMatch, lo, hi)
    decreases hi - lo
  {
    hide AnyMatch;
    if lo < hi {
      NothingMatched(vTxid, vMatch, lo, hi - 1);
      AnyMatchNext(vMatch, lo, hi);
    } else {
      NoneMatch(vMatch, lo);
    }
  }

  /** `part` sits in `whole` at `at`. */
  ghost predicate Holds<T>(whole: seq<T>, at: nat, part: seq<T>) {
    at + |part| <= |whole| && whole[at..at + |part|] == part
  }

  lemma Regroup<T>(a: seq<T>, b: seq<T>, c: seq<T>, d: seq<T>)
    ensures a + b + c + d == a + (b + c + d)
    ensures a + [] == a && [] + c == c
  {
  }

  lemma HoldsSplit<T>(whole: seq<T>, at: nat, a: seq<T>, b: seq<T>)
    requires Holds(whole, at, a + b)
    ensures Holds(whole, at, a) && Holds(whole, at + |a|, b)
  {
    assert whole[at..at + |a|] == (a + b)[..|a|];
    assert whole[at + |a|..at + |a| + |b|] == (a + b)[|a|..];
  }

  /** What a subtree's encoding must be read back as, from cursors `nBits` and `nHashes`. */
  ghost predicate ReadsBack(H: PairHash, vTxid: seq<Hash>, vMatch: seq<bool>, height: nat, pos: nat, nBits: nat, nHashes: nat, r: Parse)
    requires Lo(height, pos) < |vTxid| == |vMatch|
  {
    var b := Build(H, height, pos, vTxid, vMatch);
    var lo, hi := Lo(height, pos), Hi(|vTxid|, height, pos);
    && lo <= hi
    && r == Parse(CalcHash(H, height, pos, vTxid), nBits + |b.bits|, nHashes + |b.hashes|,
                  MatchedIds(vTxid, vMatch, lo, hi), MatchedIndices(vMatch, lo, hi), false)
  }

  lemma {:induction false} ExtractBuild(H: PairHash, vTxid: seq<Hash>, vMatch: seq<bool>, vBits: seq<bool>, vHash: seq<Hash>,
          height: nat, pos: nat, nBits: nat, nHashes: nat)
    requires Injective(H) && Distinct(vTxid) && Lo(height, pos) < |vTxid| == |vMatch|
    requires Holds(vBits, nBits, Build(H, height, pos, vTxid, vMatch).bits)
    requires Holds(vHash, nHashes, Build(H, height, pos, vTxid, vMatch).hashes)
    ensures ReadsBack(H, vTxid, vMatch, height, pos, nBits, nHashes,
                      Extract(H, |vTxid|, vBits, vHash, height, pos, nBits, nHashes))
    decreases height, 2
  {
    if height == 0 || !AnyMatch(vMatch, Lo(height, pos), Hi(|vTxid|, height, pos)) {
      ExtractBuildLeaf(H, vTxid, vMatch, vBits, vHash, height, pos, nBits, nHashes);
    } else {
      ExtractBuildInner(H, vTxid, vMatch, vBits, vHash, height, pos, nBits, nHashes);
    }
  }

  lemma ExtractBuildLeaf(H: PairHash, vTxid: seq<Hash>, vMatch: seq<bool>, vBits: seq<bool>, vHash: seq<Hash>,
          height: nat, pos: nat, nBits: nat, nHashes: nat)
    requires Injective(H) && Distinct(vTxid) && Lo(height, pos) < |vTxid| == |vMatch|
    requires Holds(vBits, nBits, Build(H, height, pos, vTxid, vMatch).bits)
    requires Holds(vHash, nHashes, Build(H, height, pos, vTxid, vMatch).hashes)
    requires height == 0 || !AnyMatch(vMatch, Lo(height, pos), Hi(|vTxid|, height, pos))
    ensures ReadsBack(H, vTxid, vMatch, height, pos, nBits, nHashes,
                      Extract(H, |vTxid|, vBits, vHash, height, pos, nBits, nHashes))
  {
    hide AnyMatch, CalcTreeWidth, Injective, Distinct;
    var b, lo, hi := Build(H, height, pos, vTxid, vMatch), Lo(height, pos), Hi(|vTxid|, height, pos);
    assert vBits[nBits..nBits + |b.bits|][0] == AnyMatch(vMatch, lo, hi);
    assert vHash[nHashes..nHashes + 1][0] == b.hashes[0];
    assert (pos + 1) * Pow(2, height) == lo + Pow(2, height);
    NothingMatched(vTxid, vMatch, lo, hi);
    if height == 0 {
      AnyMatchNext(vMatch, lo, hi);
      NoneMatch(vMatch, lo);
      assert MatchedIds(vTxid, vMatch, pos, pos) == [] && MatchedIndices(vMatch, pos, pos) == [];
    }
  }

  lemma {:induction false} ExtractBuildInner(H: PairHash, vTxid: seq<Hash>, vMatch: seq<bool>, vBits: seq<bool>, vHash: seq<Hash>,
          height: nat, pos: nat, nBits: nat, nHashes: nat)
    requires Injective(H) && Distinct(vTxid) && Lo(height, pos) < |vTxid| == |vMatch|
    requires Holds(vBits, nBits, Build(H, height, pos, vTxid, vMatch).bits)
    requires Holds(vHash, nHashes, Build(H, height, pos, vTxid, vMatch).hashes)
    requires height > 0 && AnyMatch(vMatch, Lo(height, pos), Hi(|vTxid|, height, pos))
    ensures ReadsBack(H, vTxid, vMatch, height, pos, nBits, nHashes,
                      Extract(H, |vTxid|, vBits, vHash, height, pos, nBits, nHashes))
    decreases height, 1
  {
    hide CalcTreeWidth, CalcHash, Holds, Extract, ReadsBack, Injective, Distinct, Lo;
    NodeSplit(|vTxid|, height, pos);
    var left := Build(H, height - 1, 2 * pos, vTxid, vMatch);
    if 2 * pos + 1 < CalcTreeWidth(|vTxid|, height - 1) {
      ChildrenHeld(vBits, vHash, nBits, nHashes, left, Build(H, height - 1, 2 * pos + 1, vTxid, vMatch));
      ExtractBuildTwo(H, vTxid, vMatch, vBits, vHash, height, pos, nBits, nHashes);
    } else {
      ChildrenHeld(vBits, vHash, nBits, nHashes, left, Branch([], []));
      ExtractBuildOne(H, vTxid, vMatch, vBits, vHash, height, pos, nBits, nHashes);
    }
  }

  /** The encoding of an inner node lies where the encodings of its children are expected. */
  lemma ChildrenHeld(vBits: seq<bool>, vHash: seq<Hash>, nBits: nat, nHashes: nat, left: Branch, right: Branch)
    requires Holds(vBits, nBits, [true] + left.bits + right.bits)
    requires Holds(vHash, nHashes, left.hashes + right.hashes)
    ensures nBits < |vBits| && vBits[nBits]
    ensures Holds(vBits, nBits + 1, left.bits) && Holds(vHash, nHashes, left.hashes)
    ensures Holds(vBits, nBits + 1 + |left.bits|, right.bits) && Holds(vHash, nHashes + |left.hashes|, right.hashes)
  {
    assert [true] + left.bits + right.bits == [true] + (left.bits + right.bits);
    HoldsSplit(vBits, nBits, [true], left.bits + right.bits);
    HoldsSplit(vBits, nBits + 1, left.bits, right.bits);
    HoldsSplit(vHash, nHashes, left.hashes, right.hashes);
    assert vBits[nBits..nBits + 1][0];
  }

  /** Two children read back, so the node is. */
  lemma CombineTwo(H: PairHash, vTxid: seq<Hash>, vMatch: seq<bool>, vBits: seq<bool>, vHash: seq<Hash>,
                   height: nat, pos: nat, nBits: nat, nHashes: nat, l: Parse, r: Parse)
    requires Injective(H) && Distinct(vTxid) && Lo(height, pos) < |vTxid| == |vMatch| && height > 0
    requires AnyMatch(vMatch, Lo(height, pos), Hi(|vTxid|, height, pos)) && nBits < |vBits| && vBits[nBits]
    requires 2 * pos + 1 < CalcTreeWidth(|vTxid|, height - 1)
    requires Lo(height - 1, 2 * pos) < |vTxid| && Lo(height - 1, 2 * pos + 1) < |vTxid|
    requires l == Extract(H, |vTxid|, vBits, vHash, height - 1, 2 * pos, nBits + 1, nHashes)
    requires r == Extract(H, |vTxid|, vBits, vHash, height - 1, 2 * pos + 1, l.nBits, l.nHashes)
    requires ReadsBack(H, vTxid, vMatch, height - 1, 2 * pos, nBits + 1, nHashes, l)
    requires ReadsBack(H, vTxid, vMatch, height - 1, 2 * pos + 1, l.nBits, l.nHashes, r)
    ensures ReadsBack(H, vTxid, vMatch, height, pos, nBits, nHashes,
                      Extract(H, |vTxid|, vBits, vHash, height, pos, nBits, nHashes))
  {
    var n, h := |vTxid|, height - 1;
    NodeSplit(n, height, pos);
    MatchedConcat(vTxid, vMatch, Lo(height, pos), Hi(n, h, 2 * pos), Hi(n, height, pos));
    if l.hash == r.hash {
      NodesDistinct(H, vTxid, h, 2 * pos, 2 * pos + 1);
    }
  }

  lemma CombineOne(H: PairHash, vTxid: seq<Hash>, vMatch: seq<bool>, vBits: seq<bool>, vHash: seq<Hash>,
                   height: nat, pos: nat, nBits: nat, nHashes: nat)
    requires Lo(height, pos) < |vTxid| == |vMatch| && height > 0 && Lo(height - 1, 2 * pos) < |vTxid|
    requires AnyMatch(vMatch, Lo(height, pos), Hi(|vTxid|, height, pos)) && nBits < |vBits| && vBits[nBits]
    requires 2 * pos + 1 >= CalcTreeWidth(|vTxid|, height - 1)
    requires ReadsBack(H, vTxid, vMatch, height - 1, 2 * pos, nBits + 1, nHashes,
                       Extract(H, |vTxid|, vBits, vHash, height - 1, 2 * pos, nBits + 1, nHashes))
    ensures ReadsBack(H, vTxid, vMatch, height, pos, nBits, nHashes,
                      Extract(H, |vTxid|, vBits, vHash, height, pos, nBits, nHashes))
  {
    NodeSplit(|vTxid|, height, pos);
  }

  lemma {:induction false} ExtractBuildTwo(H: PairHash, vTxid: seq<Hash>, vMatch: seq<bool>, vBits: seq<bool>, vHash: seq<Hash>,
                                           height: nat, pos: nat, nBits: nat, nHashes: nat)
    requires Injective(H) && Distinct(vTxid) && Lo(height, pos) < |vTxid| == |vMatch| && height > 0
    requires AnyMatch(vMatch, Lo(height, pos), Hi(|vTxid|, height, pos))
    requires 2 * pos + 1 < CalcTreeWidth(|vTxid|, height - 1)
    requires nBits < |vBits| && vBits[nBits]
    requires Lo(height - 1, 2 * pos) < |vTxid| && Lo(height - 1, 2 * pos + 1) < |vTxid|
    requires var b := Build(H, height - 1, 2 * pos, vTxid, vMatch);
             Holds(vBits, nBits + 1, b.bits) && Holds(vHash, nHashes, b.hashes)
    requires var b, c := Build(H, height - 1, 2 * pos, vTxid, vMatch), Build(H, height - 1, 2 * pos + 1, vTxid, vMatch);
             Holds(vBits, nBits + 1 + |b.bits|, c.bits) && Holds(vHash, nHashes + |b.hashes|, c.hashes)
    ensures ReadsBack(H, vTxid, vMatch, height, pos, nBits, nHashes,
                      Extract(H, |vTxid|, vBits, vHash, height, pos, nBits, nHashes))
    decreases height, 0
  {
    hide Build, Extract, CalcHash, CalcTreeWidth, Lo, AnyMatch, Injective, Distinct, Holds;
    var n, h := |vTxid|, height - 1;
    ExtractBuild(H, vTxid, vMatch, vBits, vHash, h, 2 * pos, nBits + 1, nHashes);
    var l := Extract(H, n, vBits, vHash, h, 2 * pos, nBits + 1, nHashes);
    ExtractBuild(H, vTxid, vMatch, vBits, vHash, h, 2 * pos + 1, l.nBits, l.nHashes);
    var r := Extract(H, n, vBits, vHash, h, 2 * pos + 1, l.nBits, l.nHashes);
    CombineTwo(H, vTxid, vMatch, vBits, vHash, height, pos, nBits, nHashes, l, r);
  }

  lemma {:induction false} ExtractBuildOne(H: PairHash, vTxid: seq<Hash>, vMatch: seq<bool>, vBits: seq<bool>, vHash: seq<Hash>,
                                           height: nat, pos: nat, nBits: nat, nHashes: nat)
    requires Injective(H) && Distinct(vTxid) && Lo(height, pos) < |vTxid| == |vMatch| && height > 0
    requires AnyMatch(vMatch, Lo(height, pos), Hi(|vTxid|, height, pos))
    requires 2 * pos + 1 >= CalcTreeWidth(|vTxid|, height - 1)
    requires nBits < |vBits| && vBits[nBits]
    requires Lo(height - 1, 2 * pos) < |vTxid|
    requires var b := Build(H, height - 1, 2 * pos, vTxid, vMatch);
             Holds(vBits, nBits + 1, b.bits) && Holds(vHash, nHashes, b.hashes)
    ensures ReadsBack(H, vTxid, vMatch, height, pos, nBits, nHashes,
                      Extract(H, |vTxid|, vBits, vHash, height, pos, nBits, nHashes))
    decreases height, 0
  {
    hide Build, Extract, CalcHash, CalcTreeWidth, Lo, AnyMatch, Injective, Distinct, Holds;
    var n, h := |vTxid|, height - 1;
    ExtractBuild(H, vTxid, vMatch, vBits, vHash, h, 2 * pos, nBits + 1, nHashes);
    CombineOne(H, vTxid, vMatch, vBits, vHash, height, pos, nBits, nHashes);
  }

  // ------------------------------------------------------------------
  // The promised size
  // ------------------------------------------------------------------

  /** A subtree stores at most one hash per leaf, at most 1 + matches * height hashes, and a bit for each. */
  lemma {:induction false} BranchSize(H: PairHash, vTxid: seq<Hash>, vMatch: seq<bool>, height: nat, pos: nat)
    requires Lo(height, pos) < |vTxid| == |vMatch|
    ensures var b, lo, hi := Build(H, height, pos, vTxid, vMatch), Lo(height, pos), Hi(|vTxid|, height, pos);
            && lo < hi
            && 1 <= |b.hashes| <= hi - lo
            && |b.hashes| <= 1 + |MatchedIndices(vMatch, lo, hi)| * height
            && |b.hashes| <= |b.bits|
  {
    var n, lo, hi := |vTxid|, Lo(height, pos), Hi(|vTxid|, height, pos);
    assert (pos + 1) * Pow(2, height) == lo + Pow(2, height);
    NothingMatched(vTxid, vMatch, lo, hi);
    if height > 0 && AnyMatch(vMatch, lo, hi) {
      var h, mid := height - 1, Hi(n, height - 1, 2 * pos);
      NodeSplit(n, height, pos);
      BranchSize(H, vTxid, vMatch, h, 2 * pos);
      if 2 * pos + 1 < CalcTreeWidth(n, h) {
        BranchSize(H, vTxid, vMatch, h, 2 * pos + 1);
        MatchedConcat(vTxid, vMatch, lo, mid, hi);
        HashCount(|MatchedIndices(vMatch, lo, mid)|, |MatchedIndices(vMatch, mid, hi)|, h);
      } else {
        HashCount(|MatchedIndices(vMatch, lo, hi)|, 0, h);
      }
    }
  }

  /** How many of the nodes that are descended from have only one child. */
  function OnlyChildren(n: nat, vMatch: seq<bool>, height: nat, pos: nat): nat
    requires Lo(height, pos) < n == |vMatch|
  {
    if height == 0 || !AnyMatch(vMatch, Lo(height, pos), Hi(n, height, pos)) then 0
    else
      NodeSplit(n, height, pos);
      OnlyChildren(n, vMatch, height - 1, 2 * pos)
        + if 2 * pos + 1 < CalcTreeWidth(n, height - 1) then OnlyChildren(n, vMatch, height - 1, 2 * pos + 1) else 1
  }

  /** A tree of N hashes has 2 N - 1 bits, and one more for each node that has only one child. */
  lemma {:induction false} BitCount(H: PairHash, vTxid: seq<Hash>, vMatch: seq<bool>, height: nat, pos: nat)
    requires Lo(height, pos) < |vTxid| == |vMatch|
    ensures var b := Build(H, height, pos, vTxid, vMatch);
            |b.bits| == 2 * |b.hashes| - 1 + OnlyChildren(|vTxid|, vMatch, height, pos)
  {
    hide AnyMatch, CalcHash, Lo, CalcTreeWidth;
    if height > 0 && AnyMatch(vMatch, Lo(height, pos), Hi(|vTxid|, height, pos)) {
      NodeSplit(|vTxid|, height, pos);
      BitCount(H, vTxid, vMatch, height - 1, 2 * pos);
      if 2 * pos + 1 < CalcTreeWidth(|vTxid|, height - 1) {
        BitCount(H, vTxid, vMatch, height - 1, 2 * pos + 1);
      }
    }
  }

  /** Some level below `height` has an odd number of nodes and a match under the last of them. */
  ghost predicate OddEndMatched(n: nat, vMatch: seq<bool>, height: nat)
    requires n == |vMatch|
  {
    exists h :: 0 <= h < height && OddEnd(n, vMatch, h)
  }

  ghost predicate OddEnd(n: nat, vMatch: seq<bool>, h: nat)
    requires n == |vMatch|
  {
    var w := CalcTreeWidth(n, h); w % 2 == 1 && AnyMatch(vMatch, Lo(h, w - 1), n)
  }

  lemma LevelUp(n: nat, height: nat, pos: nat)
    requires height > 0 && Lo(height, pos) < n
    ensures if pos + 1 < CalcTreeWidth(n, height) then 2 * pos + 2 < CalcTreeWidth(n, height - 1)
            else 2 * pos < CalcTreeWidth(n, height - 1) <= 2 * pos + 2
    ensures pos < CalcTreeWidth(n, height)
    ensures pos + 1 == CalcTreeWidth(n, height) ==> Hi(n, height, pos) == n
  {
    NodeExists(n, height, pos);
    NodeExists(n, height, pos + 1);
    NodeExists(n, height - 1, 2 * pos);
    NodeExists(n, height - 1, 2 * pos + 2);
    assert Lo(height - 1, 2 * pos) == Lo(height, pos) && Lo(height - 1, 2 * pos + 2) == Lo(height, pos + 1);
  }

  /** A node that is not the last of its level has no only child below it. */
  lemma {:induction false} FullNode(n: nat, vMatch: seq<bool>, height: nat, pos: nat)
    requires Lo(height, pos) < n == |vMatch| && pos + 1 < CalcTreeWidth(n, height)
    ensures OnlyChildren(n, vMatch, height, pos) == 0
  {
    hide AnyMatch, Lo, CalcTreeWidth;
    if height > 0 && AnyMatch(vMatch, Lo(height, pos), Hi(n, height, pos)) {
      NodeSplit(n, height, pos);
      LevelUp(n, height, pos);
      FullNode(n, vMatch, height - 1, 2 * pos);
      FullNode(n, vMatch, height - 1, 2 * pos + 1);
    }
  }

  /** The last nodes of the levels lie under one another. */
  lemma {:induction false} LastBelow(n: nat, h: nat, height: nat)
    requires h <= height && n > 0
    ensures CalcTreeWidth(n, h) > 0 && CalcTreeWidth(n, height) > 0
    ensures Lo(height, CalcTreeWidth(n, height) - 1) <= Lo(h, CalcTreeWidth(n, h) - 1) < n
    decreases height - h
  {
    hide CalcTreeWidth;
    NodeExists(n, height, 0);
    NodeExists(n, h, 0);
    NodeExists(n, h, CalcTreeWidth(n, h) - 1);
    NodeExists(n, height, CalcTreeWidth(n, height) - 1);
    if h < height {
      var pos := CalcTreeWidth(n, height) - 1;
      LevelUp(n, height, pos);
      LastBelow(n, h, height - 1);
      var w := CalcTreeWidth(n, height - 1);
      assert Lo(height - 1, 2 * pos) == Lo(height, pos);
      MulLe(2 * pos, w - 1, Pow(2, height - 1));
    }
  }

  lemma {:induction false} LastNode(n: nat, vMatch: seq<bool>, height: nat)
    requires n == |vMatch| > 0
    ensures CalcTreeWidth(n, height) > 0 && Lo(height, CalcTreeWidth(n, height) - 1) < n
    ensures OnlyChildren(n, vMatch, height, CalcTreeWidth(n, height) - 1) == 0 <==> !OddEndMatched(n, vMatch, height)
  {
    hide Lo, Hi, CalcTreeWidth;
    LastBelow(n, height, height);
    var pos := CalcTreeWidth(n, height) - 1;
    if height > 0 {
      LevelUp(n, height, pos);
      NodeSplit(n, height, pos);
      if !AnyMatch(vMatch, Lo(height, pos), n) {
        forall h | 0 <= h < height ensures !OddEnd(n, vMatch, h) {
          LastBelow(n, h, height);
        }
      } else if 2 * pos + 1 < CalcTreeWidth(n, height - 1) {
        FullNode(n, vMatch, height - 1, 2 * pos);
        LastNode(n, vMatch, height - 1);
        EvenLevel(n, vMatch, height - 1);
      } else {
        assert OddEnd(n, vMatch, height - 1);
      }
    }
  }

  lemma EvenLevel(n: nat, vMatch: seq<bool>, h: nat)
    requires n == |vMatch| && CalcTreeWidth(n, h) % 2 == 0
    ensures OddEndMatched(n, vMatch, h + 1) <==> OddEndMatched(n, vMatch, h)
  {
    hide CalcTreeWidth, AnyMatch;
  }

  /** The bound of 2 N - 1 bits for N hashes holds exactly when no level below the root has an odd number of nodes
      and a match under its last one. */
  lemma BitBoundExactly(H: PairHash, vTxid: seq<Hash>, vMatch: seq<bool>)
    requires 0 < |vTxid| == |vMatch|
    ensures Lo(TreeHeight(|vTxid|), 0) < |vTxid|
    ensures var b := Build(H, TreeHeight(|vTxid|), 0, vTxid, vMatch);
            |b.bits| <= 2 * |b.hashes| - 1 <==> !OddEndMatched(|vTxid|, vMatch, TreeHeight(|vTxid|))
  {
    hide AnyMatch, CalcTreeWidth, HeightFrom, OddEndMatched, Build, OnlyChildren;
    var n, height := |vTxid|, TreeHeight(|vTxid|);
    RootCovers(n);
    LastNode(n, vMatch, height);
    BitCount(H, vTxid, vMatch, height, 0);
  }

  /** With three transactions, the last of them matched, two hashes take four bits. */
  lemma BitBoundFails(H: PairHash, a: Hash, b: Hash, c: Hash)
    ensures TreeHeight(3) == 2 && Lo(2, 0) == 0
    ensures var t := Build(H, TreeHeight(3), 0, [a, b, c], [false, false, true]); |t.bits| == 4 && |t.hashes| == 2
  {
    assert Pow(2, 1) == 2 && Pow(2, 2) == 4;
    assert CalcTreeWidth(3, 0) == 3 && CalcTreeWidth(3, 1) == 2 && CalcTreeWidth(3, 2) == 1;
    assert HeightFrom(3, 1) == 2;
    var ids, match_ := [a, b, c], [false, false, true];
    assert match_[2];
    assert AnyMatch(match_, Lo(2, 0), Hi(3, 2, 0)) && !AnyMatch(match_, Lo(1, 0), Hi(3, 1, 0)) && AnyMatch(match_, Lo(1, 1), Hi(3, 1, 1));
    assert Build(H, 1, 0, ids, match_) == Branch([false], [CalcHash(H, 1, 0, ids)]);
    assert |Build(H, 0, 2, ids, match_).bits| == 1;
    assert |Build(H, 1, 1, ids, match_).bits| == 2;
  }

  lemma HashCount(a: nat, b: nat, h: nat)
    requires a + b > 0
    ensures (1 + a * h) + (1 + b * h) <= 1 + (a + b) * (h + 1)
  {
  }

  // ------------------------------------------------------------------
  // Flag bits in bytes, least significant bit first
  // ------------------------------------------------------------------

  function Unpack(vBytes: seq<bv8>): (vBits: seq<bool>)
    ensures |vBits| == 8 * |vBytes|
  {
    seq(8 * |vBytes|, p requires 0 <= p < 8 * |vBytes| => BitAt(vBytes[p / 8], p % 8))
  }

  function ByteCount(nBits: nat): nat { (nBits + 7) / 8 }

  /** `vBytes` holds exactly these bits, padded with zeros. */
  ghost predicate IsPacked(vBits: seq<bool>, vBytes: seq<bv8>) {
    && |vBytes| == ByteCount(|vBits|)
    && forall p :: 0 <= p < |Unpack(vBytes)| ==> Unpack(vBytes)[p] == (p < |vBits| && vBits[p])
  }

  method Pack(vBits: seq<bool>) returns (vBytes: seq<bv8>)
    ensures IsPacked(vBits, vBytes)
  {
    hide BitAt, Mask;
    vBytes := seq(ByteCount(|vBits|), _ => 0);
    forall p | 0 <= p < 8 * |vBytes| ensures !Unpack(vBytes)[p] {
      OrBit(0, 0, p % 8);
    }
    for p := 0 to |vBits|
      invariant |vBytes| == ByteCount(|vBits|)
      invariant forall q :: 0 <= q < |Unpack(vBytes)| ==> Unpack(vBytes)[q] == (q < p && vBits[q])
    {
      ghost var before := vBytes;
      if vBits[p] {
        vBytes := vBytes[p / 8 := vBytes[p / 8] | Mask(p % 8)];
      }
      PackStep(before, vBytes, vBits, p);
    }
  }

  lemma PackStep(before: seq<bv8>, after: seq<bv8>, vBits: seq<bool>, p: nat)
    requires p < |vBits| <= 8 * |before|
    requires forall q :: 0 <= q < |Unpack(before)| ==> Unpack(before)[q] == (q < p && vBits[q])
    requires after == if vBits[p] then before[p / 8 := before[p / 8] | Mask(p % 8)] else before
    ensures forall q :: 0 <= q < |Unpack(after)| ==> Unpack(after)[q] == (q < p + 1 && vBits[q])
  {
    hide BitAt, Mask, Unpack;
    if vBits[p] {
      forall q | 0 <= q < 8 * |after| ensures Unpack(after)[q] == (q < p + 1 && vBits[q]) {
        UnpackSet(before, p, q);
      }
    }
  }

  lemma UnpackSet(bytes: seq<bv8>, p: nat, q: nat)
    requires p < 8 * |bytes| && q < 8 * |bytes|
    ensures Unpack(bytes[p / 8 := bytes[p / 8] | Mask(p % 8)])[q] == (Unpack(bytes)[q] || q == p)
  {
    hide BitAt, Mask;
    OrBit(bytes[p / 8], p % 8, q % 8);
  }

  // ------------------------------------------------------------------
  // The whole codec
  // ------------------------------------------------------------------

  datatype Tree = Tree(nTransactions: nat, vBits: seq<bool>, vHash: seq<Hash>, fBad: bool)

  /** What ExtractMatches returns and appends. */
  datatype Report = Report(root: Hash, matched: seq<Hash>, indices: seq<nat>, bad: bool)

  function Root(H: PairHash, vTxid: seq<Hash>): Hash
    requires vTxid != []
  {
    CalcHash(H, TreeHeight(|vTxid|), 0, vTxid)
  }

  function Extraction(H: PairHash, limit: nat, t: Tree): Report {
    if t.nTransactions == 0 || t.nTransactions > limit || |t.vHash| > t.nTransactions || |t.vBits| < |t.vHash| then
      Report(NULL_HASH, [], [], t.fBad)
    else
      var r := Extract(H, t.nTransactions, t.vBits, t.vHash, TreeHeight(t.nTransactions), 0, 0, 0);
      var bad := t.fBad || r.bad;
      var accepted := !bad && ByteCount(r.nBits) == ByteCount(|t.vBits|) && r.nHashes == |t.vHash|;
      Report(if accepted then r.hash else NULL_HASH, r.matched, r.indices, bad)
  }

  /** Whatever bits and hashes a peer sends, if they lead to the block's root, with the block's true
      transaction count, then every reported transaction is in the block at the reported index. */
  lemma Soundness(H: PairHash, limit: nat, t: Tree, vTxid: seq<Hash>)
    requires Injective(H) && vTxid != [] && t.nTransactions == |vTxid|
    requires Extraction(H, limit, t).root == Root(H, vTxid) != NULL_HASH
    ensures Genuine(Extraction(H, limit, t).matched, Extraction(H, limit, t).indices, vTxid, 0, |vTxid|)
  {
    RootCovers(|vTxid|);
    ExtractSound(H, vTxid, t.vBits, t.vHash, TreeHeight(|vTxid|), 0, 0, 0);
  }

  /** Build, pack, unpack and extract: the root, and exactly the matched ids and indices in order, from no
      more hashes than promised. */
  lemma Completeness(H: PairHash, limit: nat, vTxid: seq<Hash>, vMatch: seq<bool>, vBytes: seq<bv8>)
    requires Injective(H) && Distinct(vTxid) && 0 < |vTxid| == |vMatch| <= limit
    requires IsPacked(Build(H, TreeHeight(|vTxid|), 0, vTxid, vMatch).bits, vBytes)
    ensures var hashes := Build(H, TreeHeight(|vTxid|), 0, vTxid, vMatch).hashes;
            && Extraction(H, limit, Tree(|vTxid|, Unpack(vBytes), hashes, false))
               == Report(Root(H, vTxid), MatchedIds(vTxid, vMatch, 0, |vTxid|), MatchedIndices(vMatch, 0, |vTxid|), false)
            && |hashes| <= |vTxid|
            && |hashes| <= 1 + |MatchedIndices(vMatch, 0, |vTxid|)| * TreeHeight(|vTxid|)
  {
    var n := |vTxid|;
    var height := TreeHeight(n);
    var b := Build(H, height, 0, vTxid, vMatch);
    RootCovers(n);
    BranchSize(H, vTxid, vMatch, height, 0);
    assert Unpack(vBytes)[0..|b.bits|] == b.bits;
    assert b.hashes[0..|b.hashes|] == b.hashes;
    ExtractBuild(H, vTxid, vMatch, Unpack(vBytes), b.hashes, height, 0, 0, 0);
  }

  class PartialMerkleTree {
    var nTransactions: nat
    var vBits: seq<bool>
    var vHash: seq<Hash>
    var fBad: bool
    const H: PairHash

    ghost function Value(): Tree
      reads this
    {
      Tree(nTransactions, vBits, vHash, fBad)
    }

    /** From a list of transaction ids and a mask that selects some of them. */
    constructor (hash: PairHash, vTxid: seq<Hash>, vMatch: seq<bool>)
      requires 0 < |vTxid| == |vMatch|
      ensures H == hash
      ensures var b := Build(hash, TreeHeight(|vTxid|), 0, vTxid, vMatch);
              Value() == Tree(|vTxid|, b.bits, b.hashes, false)
    {
      H := hash;
      nTransactions, vBits, vHash, fBad := |vTxid|, [], [], false;
      new;
      var nHeight := CalcTreeHeight(|vTxid|);
      TraverseAndBuild(nHeight, 0, vTxid, vMatch);
    }

    /** Whether some matched leaf lies under the node. */
    method ParentOfMatch(height: nat, pos: nat, vMatch: seq<bool>) returns (fParentOfMatch: bool)
      requires Lo(height, pos) < |vMatch| == nTransactions
      ensures fParentOfMatch == AnyMatch(vMatch, Lo(height, pos), Hi(nTransactions, height, pos))
    {
      fParentOfMatch := false;
      var p := Lo(height, pos);
      assert (pos + 1) * Pow(2, height) == p + Pow(2, height);
      while p < (pos + 1) * Pow(2, height) && p < nTransactions
        invariant Lo(height, pos) <= p <= Hi(nTransactions, height, pos)
        invariant fParentOfMatch == AnyMatch(vMatch, Lo(height, pos), p)
      {
        fParentOfMatch := fParentOfMatch || vMatch[p];
        p := p + 1;
      }
    }

    method TraverseAndBuild(height: nat, pos: nat, vTxid: seq<Hash>, vMatch: seq<bool>)
      requires Lo(height, pos) < |vTxid| == |vMatch| == nTransactions
      modifies this`vBits, this`vHash
      ensures var b := Build(H, height, pos, vTxid, vMatch);
              vBits == old(vBits) + b.bits && vHash == old(vHash) + b.hashes
      decreases height
    {
      hide AnyMatch, CalcHash, CalcTreeWidth;
      var fParentOfMatch := ParentOfMatch(height, pos, vMatch);
      vBits := vBits + [fParentOfMatch];
      if height == 0 || !fParentOfMatch {
        vHash := vHash + [CalcHash(H, height, pos, vTxid)];
      } else {
        NodeSplit(nTransactions, height, pos);
        TraverseAndBuild(height - 1, 2 * pos, vTxid, vMatch);
        ghost var left := Build(H, height - 1, 2 * pos, vTxid, vMatch);
        if 2 * pos + 1 < CalcTreeWidth(nTransactions, height - 1) {
          TraverseAndBuild(height - 1, 2 * pos + 1, vTxid, vMatch);
          ghost var right := Build(H, height - 1, 2 * pos + 1, vTxid, vMatch);
          Regroup(old(vBits), [true], left.bits, right.bits);
          Regroup(old(vHash), [], left.hashes, right.hashes);
        } else {
          Regroup(old(vBits), [true], left.bits, []);
          Regroup(old(vHash), [], left.hashes, []);
        }
      }
    }

    method TraverseAndExtract(height: nat, pos: nat, nBitsIn: nat, nHashIn: nat, vMatchIn: seq<Hash>, vnIndexIn: seq<nat>)
      returns (hash: Hash, nBitsUsed: nat, nHashUsed: nat, vMatch: seq<Hash>, vnIndex: seq<nat>)
      modifies this`fBad
      ensures var r := Extract(H, nTransactions, vBits, vHash, height, pos, nBitsIn, nHashIn);
              && (hash, nBitsUsed, nHashUsed) == (r.hash, r.nBits, r.nHashes)
              && vMatch == vMatchIn + r.matched && vnIndex == vnIndexIn + r.indices
              && fBad == (old(fBad) || r.bad)
      decreases height
    {
      hide CalcTreeWidth, Extract;
      ExtractNode(H, nTransactions, vBits, vHash, height, pos, nBitsIn, nHashIn);
      nBitsUsed, nHashUsed, vMatch, vnIndex := nBitsIn, nHashIn, vMatchIn, vnIndexIn;
      if nBitsUsed >= |vBits| {
        fBad := true;
        hash := NULL_HASH;
        return;
      }
      var fParentOfMatch := vBits[nBitsUsed];
      nBitsUsed := nBitsUsed + 1;
      if height == 0 || !fParentOfMatch {
        if nHashUsed >= |vHash| {
          fBad := true;
          hash := NULL_HASH;
          return;
        }
        hash := vHash[nHashUsed];
        nHashUsed := nHashUsed + 1;
        if height == 0 && fParentOfMatch {
          vMatch := vMatch + [hash];
          vnIndex := vnIndex + [pos];
        }
      } else {
        ghost var l := Extract(H, nTransactions, vBits, vHash, height - 1, 2 * pos, nBitsUsed, nHashUsed);
        var left, right;
        left, nBitsUsed, nHashUsed, vMatch, vnIndex :=
          TraverseAndExtract(height - 1, 2 * pos, nBitsUsed, nHashUsed, vMatch, vnIndex);
        if 2 * pos + 1 < CalcTreeWidth(nTransactions, height - 1) {
          ghost var r := Extract(H, nTransactions, vBits, vHash, height - 1, 2 * pos + 1, nBitsUsed, nHashUsed);
          right, nBitsUsed, nHashUsed, vMatch, vnIndex :=
            TraverseAndExtract(height - 1, 2 * pos + 1, nBitsUsed, nHashUsed, vMatch, vnIndex);
          AppendAssoc(vMatchIn, l.matched, r.matched);
          AppendAssoc(vnIndexIn, l.indices, r.indices);
          if right == left {
            fBad := true;
          }
        } else {
          right := left;
        }
        hash := H(left, right);
        assert old(fBad) ==> fBad;
      }
    }

    /** `limit` is the largest transaction count a block can have.  The index vector is not cleared first. */
    method ExtractMatches(limit: nat, vnIndexIn: seq<nat>) returns (root: Hash, vMatch: seq<Hash>, vnIndex: seq<nat>)
      modifies this`fBad
      ensures var r := Extraction(H, limit, old(Value()));
              root == r.root && vMatch == r.matched && vnIndex == vnIndexIn + r.indices && fBad == r.bad
    {
      root, vMatch, vnIndex := NULL_HASH, [], vnIndexIn;
      if nTransactions == 0 || nTransactions > limit || |vHash| > nTransactions || |vBits| < |vHash| {
        return;
      }
      var nHeight := CalcTreeHeight(nTransactions);
      var hashMerkleRoot, nBitsUsed, nHashUsed;
      hashMerkleRoot, nBitsUsed, nHashUsed, vMatch, vnIndex := TraverseAndExtract(nHeight, 0, 0, 0, [], vnIndexIn);
      if fBad || ByteCount(nBitsUsed) != ByteCount(|vBits|) || nHashUsed != |vHash| {
        return;
      }
      root := hashMerkleRoot;
    }

    method Serialize() returns (n: nat, hashes: seq<Hash>, vBytes: seq<bv8>)
      ensures n == nTransactions && hashes == vHash && IsPacked(vBits, vBytes)
    {
      n, hashes := nTransactions, vHash;
      vBytes := Pack(vBits);
    }

    method Unserialize(n: nat, hashes: seq<Hash>, vBytes: seq<bv8>)
      modifies this
      ensures Value() == Tree(n, Unpack(vBytes), hashes, false)
    {
      nTransactions, vHash := n, hashes;
      vBits := [];
      for p := 0 to 8 * |vBytes|
        invariant vBits == Unpack(vBytes)[..p]
        invariant nTransactions == n && vHash == hashes
      {
        vBits := vBits + [vBytes[p / 8] & Mask(p % 8) != 0];
        assert Unpack(vBytes)[..p + 1] == Unpack(vBytes)[..p] + [Unpack(vBytes)[p]];
      }
      fBad := false;
    }
  }
}
