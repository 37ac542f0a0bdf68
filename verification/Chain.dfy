/**
 The block tree and the active chain.  Every block knows its parent and one
 ancestor further back; the searches that use the shortcut find the same
 blocks as a walk from parent to parent.
 */
module Chain {
  import opened Powers
  import opened SkipHeights

  // ------------------------------------------------------------------
  // The block tree
  // ------------------------------------------------------------------

  class BlockIndex {
    const hash: nat
    const pprev: BlockIndex?
    const nHeight: int
    var pskip: BlockIndex?

    /** A block after `prev`, its shortcut not built yet. */
    constructor (hash: nat, prev: BlockIndex?)
      requires prev != null ==> Linked(prev)
      ensures this.hash == hash && pprev == prev && pskip == null
      ensures Linked(this) && (prev != null ==> nHeight == prev.nHeight + 1)
    {
      this.hash := hash;
      pprev := prev;
      pskip := null;
      nHeight := if prev == null then 0 else prev.nHeight + 1;
    }

    /** The ancestor at `height`, or none when there is no such height.  The walk takes the
        steps that its heights dictate. */
    method GetAncestor(height: int, ghost nodes: set<BlockIndex>) returns (r: BlockIndex?, ghost steps: nat)
      requires Tree(nodes) && this in nodes
      ensures r == null <==> height < 0 || height > nHeight
      ensures r != null ==> r == Anc(this, height) && r in nodes
      ensures r != null && Built(nodes) ==> steps == WalkSteps(nHeight, height)
    {
      hide WalkSteps, GetSkipHeight, Anc, Linked, SkipOk, Built;
      OwnAncestor(this);
      if height > nHeight || height < 0 {
        return null, 0;
      }
      steps := 0;
      var pindexWalk, heightWalk := this, nHeight;
      while heightWalk > height
        invariant height <= heightWalk <= nHeight
        invariant Built(nodes) ==> steps + WalkSteps(heightWalk, height) == WalkSteps(nHeight, height)
        invariant pindexWalk == Anc(this, heightWalk) && pindexWalk in nodes
        decreases heightWalk
      {
        StepCounts(heightWalk, height);
        WaysDown(nodes, this, pindexWalk);
        var heightSkip, heightSkipPrev := GetSkipHeight(heightWalk), GetSkipHeight(heightWalk - 1);
        if pindexWalk.pskip != null
           && (heightSkip == height
               || (heightSkip > height && !(heightSkipPrev < heightSkip - 2 && heightSkipPrev >= height))) {
          pindexWalk := pindexWalk.pskip;
          heightWalk := heightSkip;
        } else {
          assert pindexWalk.pprev != null;
          pindexWalk := pindexWalk.pprev;
          heightWalk := heightWalk - 1;
        }
        steps := steps + 1;
      }
      NearEnd(height, height);
      r := pindexWalk;
    }

    method BuildSkip(ghost nodes: set<BlockIndex>)
      requires Tree(nodes) && this !in nodes && Linked(this) && if pprev == null then pskip == null else pprev in nodes
      modifies this`pskip
      ensures Tree(nodes + {this}) && (pprev != null ==> pskip == Anc(this, GetSkipHeight(nHeight)))
      ensures old(Built(nodes)) ==> Built(nodes + {this})
    {
      if pprev != null {
        var ancestor, steps := pprev.GetAncestor(GetSkipHeight(nHeight), nodes);
        pskip := ancestor;
      }
    }
  }

  /** Heights count the steps back to a block without parent. */
  ghost predicate Linked(b: BlockIndex)
    decreases if b.nHeight < 0 then 0 else b.nHeight
  {
    && b.nHeight >= 0
    && if b.pprev == null then b.nHeight == 0 else b.nHeight > 0 && b.pprev.nHeight == b.nHeight - 1 && Linked(b.pprev)
  }

  /** The ancestor at height `h`, by walking from parent to parent. */
  ghost function Anc(b: BlockIndex, h: int): (r: BlockIndex)
    requires Linked(b) && 0 <= h <= b.nHeight
    ensures Linked(r) && r.nHeight == h
    decreases b.nHeight
  {
    if h == b.nHeight then b else Anc(b.pprev, h)
  }

  lemma Parent(b: BlockIndex)
    requires Linked(b) && b.nHeight > 0
    ensures b.pprev != null && Linked(b.pprev) && b.pprev == Anc(b, b.nHeight - 1)
  {
  }

  lemma {:induction false} AncTwice(b: BlockIndex, h: int, g: int)
    requires Linked(b) && 0 <= g <= h <= b.nHeight
    ensures Anc(Anc(b, h), g) == Anc(b, g)
    decreases b.nHeight
  {
    if h < b.nHeight {
      AncTwice(b.pprev, h, g);
    }
  }

  lemma OwnAncestor(b: BlockIndex)
    requires Linked(b)
    ensures b.nHeight >= 0 && Anc(b, b.nHeight) == b
  {
  }

  /** The parent of the ancestor at height `h`. */
  lemma Back(b: BlockIndex, h: int)
    requires Linked(b) && 0 <= h <= b.nHeight
    ensures Anc(b, h).pprev == if h == 0 then null else Anc(b, h - 1)
  {
    if h > 0 {
      AncTwice(b, h, h - 1);
      Parent(Anc(b, h));
    }
  }

  /** The shortcut, when it is there, leads to the ancestor at the skip height. */
  ghost predicate SkipOk(x: BlockIndex)
    reads x
  {
    x.pskip != null ==> Linked(x) && x.nHeight > 0 && x.pskip == Anc(x, GetSkipHeight(x.nHeight))
  }

  /** A block tree: with every block its parent, heights that count, shortcuts that lead where they should. */
  ghost predicate Tree(nodes: set<BlockIndex>)
    reads nodes
  {
    forall b :: b in nodes ==> Linked(b) && SkipOk(b) && (b.pprev != null ==> b.pprev in nodes)
  }

  /** Every block with a parent has its shortcut. */
  ghost predicate Built(nodes: set<BlockIndex>)
    reads nodes
  {
    forall b :: b in nodes && b.pprev != null ==> b.pskip != null
  }

  /** Where the parent and the shortcut of an ancestor of `b` lead. */
  lemma WaysDown(nodes: set<BlockIndex>, b: BlockIndex, a: BlockIndex)
    requires Tree(nodes) && b in nodes && a in nodes && 0 < a.nHeight <= b.nHeight && a == Anc(b, a.nHeight)
    ensures a.pprev != null && a.pprev in nodes && a.pprev == Anc(b, a.nHeight - 1)
    ensures a.pskip != null ==> a.pskip in nodes && a.pskip == Anc(b, GetSkipHeight(a.nHeight))
    ensures Built(nodes) ==> a.pskip != null
  {
    Parent(a);
    AncTwice(b, a.nHeight, a.nHeight - 1);
    AncTwice(b, a.nHeight, GetSkipHeight(a.nHeight));
    AncIn(nodes, a, GetSkipHeight(a.nHeight));
  }

  lemma {:induction false} AncIn(nodes: set<BlockIndex>, b: BlockIndex, h: int)
    requires Tree(nodes) && b in nodes && 0 <= h <= b.nHeight
    ensures Anc(b, h) in nodes
    decreases b.nHeight
  {
    if h < b.nHeight {
      AncIn(nodes, b.pprev, h);
    }
  }

  /** Blocks enter the tree after their parents, and get their shortcut at once. */
  method AddToBlockIndex(ghost nodes: set<BlockIndex>, hash: nat, prev: BlockIndex?) returns (pindexNew: BlockIndex)
    requires Tree(nodes) && (prev != null ==> prev in nodes)
    ensures fresh(pindexNew) && pindexNew.hash == hash && pindexNew.pprev == prev && Tree(nodes + {pindexNew})
    ensures forall b :: b in nodes ==> b.pskip == old(b.pskip)
    ensures old(Built(nodes)) ==> Built(nodes + {pindexNew})
  {
    pindexNew := new BlockIndex(hash, prev);
    pindexNew.BuildSkip(nodes);
  }

  // ------------------------------------------------------------------
  // The last common ancestor
  // ------------------------------------------------------------------

  /** The highest block that is an ancestor of both, or none when there is no such block. */
  ghost predicate IsFork(a: BlockIndex, b: BlockIndex, r: BlockIndex?)
    requires Linked(a) && Linked(b)
  {
    && (r != null ==> 0 <= r.nHeight <= a.nHeight && r.nHeight <= b.nHeight && r == Anc(a, r.nHeight) == Anc(b, r.nHeight))
    && (forall h :: 0 <= h <= a.nHeight && h <= b.nHeight && Anc(a, h) == Anc(b, h) ==> r != null && h <= r.nHeight)
  }

  method LastCommonAncestor(a: BlockIndex, b: BlockIndex, ghost nodes: set<BlockIndex>) returns (r: BlockIndex?)
    requires Tree(nodes) && a in nodes && b in nodes
    ensures IsFork(a, b, r)
  {
    hide WalkSteps, GetSkipHeight;
    hide Anc, Linked, SkipOk;
    OwnAncestor(a);
    OwnAncestor(b);
    var pa: BlockIndex?, pb: BlockIndex? := a, b;
    if pa.nHeight > pb.nHeight {
      var ancestor, steps := pa.GetAncestor(pb.nHeight, nodes);
      pa := ancestor;
    } else if pb.nHeight > pa.nHeight {
      var ancestor, steps := pb.GetAncestor(pa.nHeight, nodes);
      pb := ancestor;
    }
    ghost var height := if a.nHeight < b.nHeight then a.nHeight else b.nHeight;
    while pa != pb && pa != null && pb != null
      invariant -1 <= height <= a.nHeight && height <= b.nHeight
      invariant if height == -1 then pa == pb == null else pa == Anc(a, height) && pb == Anc(b, height)
      invariant forall h :: height < h <= a.nHeight && h <= b.nHeight ==> Anc(a, h) != Anc(b, h)
      decreases height
    {
      Back(a, height);
      Back(b, height);
      pa := pa.pprev;
      pb := pb.pprev;
      height := height - 1;
    }
    assert pa == pb;
    return pa;
  }

  // ------------------------------------------------------------------
  // The active chain
  // ------------------------------------------------------------------

  /** The blocks from a block without parent up to `tip`, indexed by height. */
  ghost predicate IsChainOf(v: seq<BlockIndex?>, tip: BlockIndex)
    requires Linked(tip)
  {
    |v| == tip.nHeight + 1 && forall i :: 0 <= i < |v| ==> v[i] == Anc(tip, i)
  }

  ghost predicate IsChain(v: seq<BlockIndex?>) {
    v != [] ==>
      var tip := v[|v| - 1];
      tip != null && Linked(tip) && IsChainOf(v, tip)
  }

  /** The heights that a locator visits from height `h` on, after `n` blocks and with steps of `step`. */
  function LocatorHeights(h: nat, n: nat, step: nat): seq<nat>
    requires step > 0
    decreases h
  {
    if h == 0 then [0]
    else [h] + LocatorHeights(if h < step then 0 else h - step, n + 1, if n + 1 > 10 then 2 * step else step)
  }

  class ActiveChain {
    var vChain: seq<BlockIndex?>

    constructor ()
      ensures vChain == [] && IsChain(vChain)
    {
      vChain := [];
    }

    function Tip(): BlockIndex?
      reads this
    {
      if |vChain| > 0 then vChain[|vChain| - 1] else null
    }

    function At(nHeight: int): BlockIndex?
      reads this
    {
      if nHeight < 0 || nHeight >= |vChain| then null else vChain[nHeight]
    }

    predicate Contains(pindex: BlockIndex)
      reads this
    {
      At(pindex.nHeight) == pindex
    }

    function Height(): int
      reads this
    {
      |vChain| - 1
    }

    /** Rewrites the chain from the top down, and stops where it agrees with the old one. */
    method SetTip(tip: BlockIndex?)
      requires IsChain(vChain) && (tip != null ==> Linked(tip))
      modifies this
      ensures IsChain(vChain) && Tip() == tip
      ensures if tip == null then vChain == [] else IsChainOf(vChain, tip)
    {
      if tip == null {
        vChain := [];
        return;
      }
      hide Anc, Linked, IsChain;
      OwnAncestor(tip);
      ghost var v0 := vChain;
      if tip.nHeight + 1 <= |vChain| {
        vChain := vChain[..tip.nHeight + 1];
      } else {
        vChain := vChain + seq(tip.nHeight + 1 - |vChain|, _ => null);
      }
      var pindex: BlockIndex? := tip;
      ghost var h := tip.nHeight;
      while pindex != null && vChain[pindex.nHeight] != pindex
        invariant |vChain| == tip.nHeight + 1 && -1 <= h <= tip.nHeight
        invariant pindex == if h == -1 then null else Anc(tip, h)
        invariant forall i :: h < i <= tip.nHeight ==> vChain[i] == Anc(tip, i)
        invariant forall i :: 0 <= i <= h ==> vChain[i] == if i < |v0| then v0[i] else null
        decreases h
      {
        Back(tip, h);
        vChain := vChain[pindex.nHeight := pindex];
        pindex := pindex.pprev;
        h := h - 1;
      }
      if pindex != null {
        Agrees(v0, tip, h);
      }
      AllOfChain(vChain, tip);
    }

    /** The last block that `pindex0` and the chain share. */
    method FindFork(pindex0: BlockIndex?, ghost nodes: set<BlockIndex>) returns (r: BlockIndex?)
      requires IsChain(vChain) && Tree(nodes) && (pindex0 != null ==> pindex0 in nodes)
      ensures pindex0 == null || Tip() == null ==> r == null
      ensures pindex0 != null && Tip() != null ==> IsFork(pindex0, Tip(), r)
    {
      hide Anc, Linked, SkipOk;
      var pindex := pindex0;
      if pindex == null {
        return null;
      }
      OwnAncestor(pindex0);
      if pindex.nHeight > Height() {
        var ancestor, steps := pindex.GetAncestor(Height(), nodes);
        pindex := ancestor;
      }
      ghost var h := if pindex0.nHeight > Height() then Height() else pindex0.nHeight;
      while pindex != null && !Contains(pindex)
        invariant -1 <= h <= pindex0.nHeight && h <= Height()
        invariant pindex == if h == -1 then null else Anc(pindex0, h)
        invariant forall g :: h < g <= pindex0.nHeight && g <= Height() ==> vChain[g] != Anc(pindex0, g)
        decreases h
      {
        Back(pindex0, h);
        pindex := pindex.pprev;
        h := h - 1;
      }
      return pindex;
    }

    /** Hashes back to the first block, in steps that double after the first ten. */
    method GetLocator(pindex0: BlockIndex?, ghost nodes: set<BlockIndex>) returns (vHave: seq<nat>)
      requires IsChain(vChain) && Tree(nodes) && (pindex0 != null ==> pindex0 in nodes) && (Tip() != null ==> Tip() in nodes)
      ensures var start := if pindex0 == null then Tip() else pindex0;
              if start == null then vHave == [] else IsLocator(start, vHave)
    {
      hide Anc, Linked, SkipOk, LocatorHeights, Locates, WalkSteps;
      var nStep := 1;
      vHave := [];
      var start := if pindex0 == null then Tip() else pindex0;
      var pindex := start;
      if start == null {
        return;
      }
      OwnAncestor(start);
      ghost var heights: seq<nat> := [];
      ghost var all := LocatorHeights(start.nHeight, 0, 1);
      LocatesNone(start);
      while true
        invariant pindex != null && pindex in nodes && 0 <= pindex.nHeight <= start.nHeight && pindex == Anc(start, pindex.nHeight)
        invariant nStep > 0 && heights + LocatorHeights(pindex.nHeight, |vHave|, nStep) == all && Locates(start, heights, vHave)
        decreases pindex.nHeight
      {
        ghost var h: nat := pindex.nHeight;
        LocatesMore(start, heights, vHave, h);
        vHave := vHave + [pindex.hash];
        NextHeight(heights, h, |vHave| - 1, nStep);
        heights := heights + [h];
        if pindex.nHeight == 0 {
          break;
        }
        var nHeight := if pindex.nHeight < nStep then 0 else pindex.nHeight - nStep;
        AncTwice(start, h, nHeight);
        AncIn(nodes, pindex, nHeight);
        if Contains(pindex) {
          OwnAncestor(pindex);
          Agrees(vChain, pindex, h);
          pindex := At(nHeight);
        } else {
          var ancestor, steps := pindex.GetAncestor(nHeight, nodes);
          pindex := ancestor;
        }
        if |vHave| > 10 {
          nStep := nStep * 2;
        }
      }
    }
  }

  /** The hashes of the ancestors of `start` at these heights. */
  ghost predicate Locates(start: BlockIndex, heights: seq<nat>, hashes: seq<nat>)
    requires Linked(start)
  {
    |hashes| == |heights| && forall i :: 0 <= i < |heights| ==> heights[i] <= start.nHeight && hashes[i] == Anc(start, heights[i]).hash
  }

  lemma LocatesNone(start: BlockIndex)
    requires Linked(start)
    ensures Locates(start, [], [])
  {
  }

  lemma LocatesMore(start: BlockIndex, heights: seq<nat>, hashes: seq<nat>, h: nat)
    requires Linked(start) && Locates(start, heights, hashes) && h <= start.nHeight
    ensures Locates(start, heights + [h], hashes + [Anc(start, h).hash])
  {
  }

  ghost predicate IsLocator(start: BlockIndex, hashes: seq<nat>)
    requires Linked(start)
  {
    start.nHeight >= 0 && Locates(start, LocatorHeights(start.nHeight, 0, 1), hashes)
  }

  lemma NextHeight(heights: seq<nat>, h: nat, n: nat, step: nat)
    requires step > 0
    ensures var rest := LocatorHeights(h, n, step);
            if h == 0 then heights + rest == heights + [h]
            else heights + rest == (heights + [h]) + LocatorHeights(if h < step then 0 else h - step, n + 1, if n + 1 > 10 then 2 * step else step)
  {
  }

  /** A locator starts at its block, goes down without repeating and ends at the first block. */
  lemma {:induction false} LocatorDescends(h: nat, n: nat, step: nat)
    requires step > 0
    ensures var hs := LocatorHeights(h, n, step);
            && hs[0] == h && hs[|hs| - 1] == 0
            && forall i, j :: 0 <= i < j < |hs| ==> hs[i] > hs[j]
    decreases h
  {
    if h > 0 {
      LocatorDescends(if h < step then 0 else h - step, n + 1, if n + 1 > 10 then 2 * step else step);
    }
  }

  /** Once the steps double, k more of them cover 2^k - 1 of the present ones. */
  lemma {:induction false} LocatorShort(h: nat, n: nat, step: nat, k: nat)
    requires step > 0 && n >= 10 && h <= step * (Pow(2, k) - 1)
    ensures |LocatorHeights(h, n, step)| <= k + 1
    decreases h
  {
    hide Pow;
    PowZero(2);
    if h > 0 {
      assert k > 0;
      TwicePow(k);
      DoubleStep(h, step, Pow(2, k - 1));
      LocatorShort(if h < step then 0 else h - step, n + 1, 2 * step, k - 1);
    }
  }

  lemma DoubleStep(h: nat, step: nat, p: nat)
    requires p > 0 && h <= step * (2 * p - 1)
    ensures (if h < step then 0 else h - step) <= (2 * step) * (p - 1)
  {
    assert step * (2 * p - 1) == (2 * step) * (p - 1) + step;
  }

  /** The number of hashes grows with the logarithm of the height. */
  lemma {:induction false} LocatorLength(h: nat, n: nat, k: nat)
    requires n <= 10 && h < Pow(2, k)
    ensures |LocatorHeights(h, n, 1)| <= 11 - n + k
  {
    if n == 10 {
      LocatorShort(h, n, 1, k);
    } else if h > 0 {
      LocatorLength(h - 1, n + 1, k);
    }
  }

  /** Where the old chain holds an ancestor of `tip`, it holds all the lower ones as well. */
  lemma Agrees(v: seq<BlockIndex?>, tip: BlockIndex, h: int)
    requires IsChain(v) && Linked(tip) && 0 <= h <= tip.nHeight && h < |v| && v[h] == Anc(tip, h)
    ensures forall i :: 0 <= i <= h ==> v[i] == Anc(tip, i)
  {
    var old_ := v[|v| - 1];
    forall i | 0 <= i <= h ensures v[i] == Anc(tip, i) {
      AncTwice(old_, h, i);
      AncTwice(tip, h, i);
    }
  }

  lemma AllOfChain(v: seq<BlockIndex?>, tip: BlockIndex)
    requires Linked(tip) && IsChainOf(v, tip)
    ensures IsChain(v) && v != [] && v[|v| - 1] == tip
  {
  }
}
