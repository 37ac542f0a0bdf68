/**
 The heights that the shortcuts of the block tree lead to, and the walk over
 them from one height down to another.  From k = 9 on, the longest walk below
 height 2^k takes exactly k^2 / 4 + 2 k - 7 steps.
 */
module SkipHeights {
  import opened Powers

  // ------------------------------------------------------------------
  // Where the shortcut of a block leads
  // ------------------------------------------------------------------

  function And(x: nat, y: nat): nat {
    if x == 0 || y == 0 then 0
    else 2 * And(x / 2, y / 2) + if x % 2 == 1 && y % 2 == 1 then 1 else 0
  }

  function InvertLowestOne(n: nat): nat { if n == 0 then 0 else And(n, n - 1) }

  lemma {:induction false} AndSelf(x: nat)
    ensures And(x, x) == x
  {
    if x > 0 {
      AndSelf(x / 2);
    }
  }

  /** Exactly the lowest one bit goes: what is left is even further up and smaller by that power of two. */
  lemma {:induction false} LowestOneGoes(n: nat) returns (k: nat)
    requires n > 0
    ensures n == InvertLowestOne(n) + Pow(2, k) && InvertLowestOne(n) % Pow(2, k + 1) == 0
  {
    if n % 2 == 1 {
      AndSelf(n / 2);
      k := 0;
      assert (n - 1) / 2 == n / 2 && Pow(2, 1) == 2;
    } else {
      var j := LowestOneGoes(n / 2);
      k := j + 1;
      assert (n - 1) / 2 == n / 2 - 1;
      TwiceMod(InvertLowestOne(n / 2), Pow(2, j + 1));
    }
  }

  lemma TwiceMod(x: nat, p: nat)
    requires p > 0 && x % p == 0
    ensures (2 * x) % (2 * p) == 0
  {
    var q := x / p;
    assert x == q * p;
    MulTwo(q, p);
    DivModIs(2 * x, q, 0, 2 * p);
  }

  lemma InvertBelow(n: nat)
    ensures InvertLowestOne(n) <= n && (n > 0 ==> InvertLowestOne(n) < n)
  {
    if n > 0 {
      var k := LowestOneGoes(n);
    }
  }

  function GetSkipHeight(height: nat): (r: nat)
    ensures r <= height && (height > 0 ==> r < height)
  {
    if height < 2 then 0
    else if height % 2 == 1 then
      InvertBelow(height - 1);
      InvertBelow(InvertLowestOne(height - 1));
      InvertLowestOne(InvertLowestOne(height - 1)) + 1
    else
      InvertBelow(height);
      InvertLowestOne(height)
  }

  /** How far: an even height loses its lowest one, an odd one the two above its last bit, if there are two. */
  lemma SkipGoes(height: nat) returns (low: nat, next: nat)
    requires height >= 2
    ensures height % 2 == 0 ==> height == GetSkipHeight(height) + Pow(2, low) && GetSkipHeight(height) % Pow(2, low + 1) == 0
    ensures height % 2 == 1 ==>
              var rest := height - 1 - Pow(2, low);
              && rest >= 0 && rest % Pow(2, low + 1) == 0
              && if rest == 0 then GetSkipHeight(height) == 1
                 else rest + 1 == GetSkipHeight(height) + Pow(2, next) && (GetSkipHeight(height) - 1) % Pow(2, next + 1) == 0
  {
    hide InvertLowestOne, Pow;
    next := 0;
    if height % 2 == 0 {
      low := LowestOneGoes(height);
    } else {
      low := LowestOneGoes(height - 1);
      NothingCleared();
      if InvertLowestOne(height - 1) > 0 {
        next := LowestOneGoes(InvertLowestOne(height - 1));
      }
    }
  }

  // ------------------------------------------------------------------
  // The walk over heights
  // ------------------------------------------------------------------

  /** One step of the walk from height `w` to height `t`: over the shortcut, unless it goes too far or the
      parent has a better one. */
  function WalkNext(w: nat, t: nat): (r: nat)
    requires t < w
    ensures t <= r < w
  {
    var skip, skipPrev := GetSkipHeight(w), GetSkipHeight(w - 1);
    if skip == t || (skip > t && !(skipPrev < skip - 2 && skipPrev >= t)) then skip else w - 1
  }

  function WalkSteps(w: nat, t: nat): nat
    decreases w
  {
    if w <= t then 0 else 1 + WalkSteps(WalkNext(w, t), t)
  }

  lemma NearEnd(w: nat, t: nat)
    requires w <= t + 1
    ensures WalkSteps(w, t) <= 1 && WalkSteps(t, t) == 0
  {
  }

  // ------------------------------------------------------------------
  // Clearing the lowest one
  // ------------------------------------------------------------------

  /** The lowest `k` bits are zero. */
  predicate Aligned(x: nat, k: nat) { k == 0 || (x % 2 == 0 && Aligned(x / 2, k - 1)) }

  lemma InvertOdd(n: nat)
    requires n % 2 == 1
    ensures InvertLowestOne(n) == n - 1
  {
    AndSelf(n / 2);
    assert (n - 1) / 2 == n / 2;
  }

  lemma InvertEven(n: nat)
    requires n % 2 == 0
    ensures InvertLowestOne(n) == 2 * InvertLowestOne(n / 2)
  {
    if n > 0 {
      assert (n - 1) / 2 == n / 2 - 1;
    }
  }

  lemma {:induction false} AlignedLess(x: nat, k: nat, j: nat)
    requires Aligned(x, k) && j <= k
    ensures Aligned(x, j)
  {
    if j > 0 {
      AlignedLess(x / 2, k - 1, j - 1);
    }
  }

  lemma {:induction false} AlignedPower(x: nat, k: nat)
    requires Aligned(x, k)
    ensures Aligned(x + Pow(2, k), k)
  {
    if k > 0 {
      AlignedPower(x / 2, k - 1);
    }
  }

  lemma {:induction false} InvertAligned(x: nat, k: nat)
    requires Aligned(x, k)
    ensures Aligned(InvertLowestOne(x), k + 1) && (x > 0 ==> x >= InvertLowestOne(x) + Pow(2, k))
  {
    hide InvertLowestOne, Pow, Aligned;
    InvertBelow(x);
    if k == 0 {
      PowZero(2);
      InvertIsEven(x);
    } else {
      TwicePow(k);
      var h := AlignedHalf(x, k);
      InvertAligned(h, k - 1);
      AlignedTwice(InvertLowestOne(h), k);
    }
  }

  lemma AlignedHalf(x: nat, k: nat) returns (h: nat)
    requires Aligned(x, k) && k > 0
    ensures x == 2 * h && Aligned(h, k - 1) && InvertLowestOne(x) == 2 * InvertLowestOne(h)
  {
    h := x / 2;
    InvertEven(x);
  }

  lemma AlignedTwice(h: nat, k: nat)
    requires Aligned(h, k)
    ensures Aligned(2 * h, k + 1)
  {
  }

  lemma InvertIsEven(x: nat)
    ensures Aligned(InvertLowestOne(x), 1)
  {
    hide InvertLowestOne;
    if x % 2 == 1 {
      InvertOdd(x);
    } else {
      InvertEven(x);
    }
  }

  lemma TwicePow(k: nat)
    requires k > 0
    ensures Pow(2, k) == 2 * Pow(2, k - 1)
  {
  }

  /** The one above aligned zeros. */
  lemma {:induction false} InvertTop(p: nat, k: nat)
    requires Aligned(p, k + 1)
    ensures InvertLowestOne(p + Pow(2, k)) == p
  {
    hide InvertLowestOne;
    if k == 0 {
      InvertOdd(p + 1);
    } else {
      InvertEven(p + Pow(2, k));
      InvertTop(p / 2, k - 1);
    }
  }

  /** Ones below aligned zeros go first. */
  lemma {:induction false} InvertSum(h: nat, r: nat, k: nat)
    requires Aligned(h, k) && 0 < r < Pow(2, k)
    ensures InvertLowestOne(h + r) == h + InvertLowestOne(r)
  {
    hide InvertLowestOne;
    if r % 2 == 1 {
      InvertOdd(h + r);
      InvertOdd(r);
    } else {
      var g, q := h / 2, r / 2;
      assert h == 2 * g && r == 2 * q && (h + r) / 2 == g + q;
      InvertEven(h + r);
      InvertEven(r);
      InvertSum(g, q, k - 1);
    }
  }

  // ------------------------------------------------------------------
  // Down to the middle of a block of heights
  // ------------------------------------------------------------------

  /** `h` is the middle of the block from `p`, and `t` lies in its lower half. */
  ghost predicate Middle(p: nat, h: nat, j: nat, t: nat) {
    Aligned(p, j + 1) && h == p + Pow(2, j) && p <= t <= h
  }

  lemma MiddleFacts(p: nat, h: nat, j: nat, t: nat)
    requires Middle(p, h, j, t)
    ensures InvertLowestOne(h) == p && Aligned(h, j) && (j > 0 ==> h % 2 == 0)
    ensures InvertLowestOne(p) + 1 <= t + 1
  {
    InvertTop(p, j);
    AlignedLess(p, j + 1, j);
    AlignedPower(p, j);
    InvertBelow(p);
  }

  /** Two ones cleared above the middle stay above it or fall to the start of the block. */
  lemma TwoDown(p: nat, h: nat, j: nat, t: nat, r: nat)
    requires Middle(p, h, j, t) && r < Pow(2, j)
    ensures var r1 := InvertLowestOne(r);
            InvertLowestOne(InvertLowestOne(h + r))
            == if r == 0 then InvertLowestOne(p) else if r1 == 0 then p else h + InvertLowestOne(r1)
  {
    hide InvertLowestOne, Aligned;
    MiddleFacts(p, h, j, t);
    if r > 0 {
      InvertSum(h, r, j);
      InvertBelow(r);
      if InvertLowestOne(r) > 0 {
        InvertSum(h, InvertLowestOne(r), j);
      }
    }
  }

  /** The step from an odd height above the middle: over the shortcut where it does not go too far. */
  lemma OddStep(p: nat, h: nat, j: nat, t: nat, r: nat)
    requires Middle(p, h, j, t) && j > 0 && r % 2 == 0 && r < Pow(2, j)
    ensures var w, far := h + r + 1, InvertLowestOne(InvertLowestOne(h + r)) + 1;
            WalkNext(w, t) == if far >= t then far else h + r
  {
    hide InvertLowestOne, Aligned;
    MiddleFacts(p, h, j, t);
    InvertBelow(InvertLowestOne(h + r));
    EvenSkip(h + r);
    assert (h + r + 1) % 2 == 1 && h + r >= 2;
  }

  lemma EvenSkip(w: nat)
    requires w % 2 == 0
    ensures GetSkipHeight(w) == InvertLowestOne(w)
  {
    if w == 0 {
      assert InvertLowestOne(0) == 0;
    }
  }

  /** The step from an even height above the middle. */
  lemma EvenStep(p: nat, h: nat, j: nat, t: nat, r: nat)
    requires Middle(p, h, j, t) && j > 0 && 0 < r && r % 2 == 0 && r < Pow(2, j)
    ensures var w := h + r; WalkNext(w, t) == h + InvertLowestOne(r) || WalkNext(w, t) == h + (r - 2) + 1
    ensures t > p + 1 && InvertLowestOne(r) == 0 ==> WalkNext(h + r, t) == h
  {
    hide InvertLowestOne, Aligned;
    MiddleFacts(p, h, j, t);
    EvenSkip(h + r);
    InvertSum(h, r, j);
    TwoDown(p, h, j, t, r - 2);
    var w := h + r;
    assert (w - 1) % 2 == 1 && GetSkipHeight(w - 1) == InvertLowestOne(InvertLowestOne(h + (r - 2))) + 1;
    InvertBelow(p);
  }

  lemma AlignedEven(r: nat, a: nat)
    requires Aligned(r, a) && a > 0
    ensures r % 2 == 0
  {
  }

  /** Aligned numbers other than zero are no smaller than their alignment. */
  lemma BelowPower(r: nat, a: nat, j: nat)
    requires Aligned(r, a) && r < Pow(2, j)
    ensures r == 0 || a < j
  {
    if j <= a {
      PowMono(2, j, a);
    }
    InvertAligned(r, a);
  }

  lemma StepCounts(w: nat, t: nat)
    requires t < w
    ensures WalkSteps(w, t) == 1 + WalkSteps(WalkNext(w, t), t)
  {
  }

  /** From an odd height each shortcut clears two ones. */
  lemma {:induction false} OddDescent(p: nat, h: nat, j: nat, t: nat, r: nat, a: nat)
    requires Middle(p, h, j, t) && 0 < a <= j && Aligned(r, a) && r < Pow(2, j)
    ensures WalkSteps(h + r + 1, t) <= WalkSteps(h, t) + 1 + (j - a + 1) / 2
    decreases r
  {
    hide InvertLowestOne, Aligned, WalkNext, WalkSteps, Pow;
    AlignedEven(r, a);
    BelowPower(r, a, j);
    OddStep(p, h, j, t, r);
    TwoDown(p, h, j, t, r);
    MiddleFacts(p, h, j, t);
    StepCounts(h + r + 1, t);
    var r1 := InvertLowestOne(r);
    if r == 0 {
      if InvertLowestOne(p) + 1 >= t {
        NearEnd(InvertLowestOne(p) + 1, t);
        InvertBelow(p);
        StillAway(p, h, j, t);
      }
    } else if r1 == 0 {
      if p + 1 >= t {
        NearEnd(p + 1, t);
      } else {
        EvenStep(p, h, j, t, r);
        StepCounts(h + r, t);
      }
    } else {
      var r2 := InvertLowestOne(r1);
      InvertBelow(r);
      InvertBelow(r1);
      InvertAligned(r, a);
      BelowPower(r1, a + 1, j);
      InvertAligned(r1, a + 1);
      OddDescent(p, h, j, t, r2, a + 2);
    }
  }

  lemma StillAway(p: nat, h: nat, j: nat, t: nat)
    requires Middle(p, h, j, t) && j > 0 && t <= p + 1
    ensures WalkSteps(h, t) >= 1
  {
    TwicePow(j);
    StepCounts(h, t);
  }

  /** Eight down from an aligned height, its neighbour's shortcut is no better. */
  lemma EightDown(x: nat)
    requires Aligned(x, 3) && x > 0
    ensures x >= 8 && InvertLowestOne(InvertLowestOne(x - 2)) == x - 8 && InvertLowestOne(x) <= x - 8
  {
    hide InvertLowestOne;
    InvertAligned(x, 3);
    assert Pow(2, 3) == 8 by { assert Pow(2, 2) == 4; }
    AlignedMinus(x);
    SixFour();
    InvertSum(x - 8, 6, 3);
    InvertSum(x - 8, 4, 3);
  }

  lemma AlignedMinus(x: nat)
    requires Aligned(x, 3) && x >= 8
    ensures Aligned(x - 8, 3)
  {
    hide Aligned, InvertLowestOne;
    var q2 := AlignedHalf(x, 3);
    var q1 := AlignedHalf(q2, 2);
    var q := AlignedHalf(q1, 1);
    TimesEight(q - 1);
  }

  lemma TimesEight(q: nat)
    ensures Aligned(2 * q, 1) && Aligned(2 * (2 * q), 2) && Aligned(2 * (2 * (2 * q)), 3)
  {
    hide Aligned;
    AnyAligned(q);
    AlignedTwice(q, 0);
    AlignedTwice(2 * q, 1);
    AlignedTwice(2 * (2 * q), 2);
  }

  lemma SixFour()
    ensures InvertLowestOne(6) == 4 && InvertLowestOne(4) == 0
  {
    InvertTop(4, 1);
    InvertTop(0, 2);
  }

  /** From a multiple of eight the shortcuts clear one at a time. */
  lemma EightStep(p: nat, h: nat, j: nat, t: nat, r: nat)
    requires Middle(p, h, j, t) && Aligned(r, 3) && 0 < r < Pow(2, j)
    ensures WalkNext(h + r, t) == h + InvertLowestOne(r)
  {
    hide InvertLowestOne, Aligned, Pow;
    BelowPower(r, 3, j);
    MiddleFacts(p, h, j, t);
    AlignedLess(h, j, 3);
    AlignedSum(h, r, 3);
    EightDown(h + r);
    InvertSum(h, r, j);
    AlignedEven(r, 3);
    EvenSkip(h + r);
    OddSkip(h + r - 1);
  }

  lemma {:induction false} AlignedSum(x: nat, y: nat, k: nat)
    requires Aligned(x, k) && Aligned(y, k)
    ensures Aligned(x + y, k)
  {
    if k > 0 {
      AlignedSum(x / 2, y / 2, k - 1);
      assert (x + y) / 2 == x / 2 + y / 2;
    }
  }

  lemma OddSkip(w: nat)
    requires w % 2 == 1 && w >= 2
    ensures GetSkipHeight(w) == InvertLowestOne(InvertLowestOne(w - 1)) + 1
  {
  }

  lemma {:induction false} EightDescent(p: nat, h: nat, j: nat, t: nat, r: nat, a: nat)
    requires Middle(p, h, j, t) && 3 <= a && Aligned(r, a) && r < Pow(2, j)
    ensures WalkSteps(h + r, t) <= WalkSteps(h, t) + if r == 0 then 0 else j - a
    decreases r
  {
    hide InvertLowestOne, Aligned, WalkNext, WalkSteps, Pow;
    BelowPower(r, a, j);
    if r > 0 {
      AlignedLess(r, a, 3);
      EightStep(p, h, j, t, r);
      MiddleFacts(p, h, j, t);
      StepCounts(h + r, t);
      InvertBelow(r);
      InvertAligned(r, a);
      BelowPower(InvertLowestOne(r), a + 1, j);
      EightDescent(p, h, j, t, InvertLowestOne(r), a + 1);
    }
  }

  /** The shortcut of the neighbour below an even height that is not a multiple of eight. */
  lemma SmallStep(p: nat, h: nat, j: nat, t: nat, r: nat)
    requires Middle(p, h, j, t) && 0 < r < Pow(2, j) && r % 2 == 0
    ensures var far := InvertLowestOne(InvertLowestOne(h + (r - 2))) + 1;
            WalkNext(h + r, t) == if far >= t && far < h + InvertLowestOne(r) - 2 then h + (r - 2) + 1 else h + InvertLowestOne(r)
  {
    hide InvertLowestOne, Aligned, GetSkipHeight, Pow;
    MiddleFacts(p, h, j, t);
    EvenPower(r, j);
    EvenSkip(h + r);
    InvertSum(h, r, j);
    OddSkip(h + r - 1);
  }

  lemma EvenPower(r: nat, j: nat)
    requires 0 < r < Pow(2, j) && r % 2 == 0
    ensures j > 1
  {
    assert Pow(2, 0) == 1 && Pow(2, 1) == 2;
  }

  /** What the walk to the middle of a block costs at most. */
  function Cost(j: nat): nat { if j >= 9 then j - 3 else (j + 3) / 2 }

  /** Half of four: the lowest one of `r` is bit 1. */
  lemma TwoDescent(p: nat, h: nat, j: nat, t: nat, x: nat)
    requires Middle(p, h, j, t) && Aligned(x, 2) && x + 2 < Pow(2, j)
    ensures WalkSteps(h + (x + 2), t) <= WalkSteps(h, t) + (j + 3) / 2
  {
    hide InvertLowestOne, Aligned, WalkNext, WalkSteps, Pow;
    AlignedEven(x, 2);
    EvenPower(x + 2, j);
    LowTwo(x);
    SmallStep(p, h, j, t, x + 2);
    MiddleFacts(p, h, j, t);
    StepCounts(h + (x + 2), t);
    if WalkNext(h + (x + 2), t) == h + x + 1 {
      OddDescent(p, h, j, t, x, 2);
    } else if x > 0 {
      OneLeft(p, h, j, t, x);
    }
  }

  /** The even shortcut is taken from there only with one bit left. */
  lemma OneLeft(p: nat, h: nat, j: nat, t: nat, x: nat)
    requires Middle(p, h, j, t) && Aligned(x, 2) && 0 < x && x + 2 < Pow(2, j)
    requires WalkNext(h + (x + 2), t) != h + x + 1
    ensures WalkSteps(h + x, t) == 1 + WalkSteps(h, t) && j >= 3
  {
    hide InvertLowestOne, Aligned, WalkNext, WalkSteps, Pow;
    AlignedEven(x, 2);
    LowTwo(x);
    BelowPower(x, 2, j);
    SmallStep(p, h, j, t, x + 2);
    TwoDown(p, h, j, t, x);
    InvertAligned(x, 2);
    FourEight();
    var x1 := InvertLowestOne(x);
    if x1 > 0 {
      InvertAligned(x1, 3);
      assert false;
    }
    TwicePow(j);
    EvenStep(p, h, j, t, x);
    StepCounts(h + x, t);
  }

  lemma FourEight()
    ensures Pow(2, 2) == 4 && Pow(2, 3) == 8
  {
    assert Pow(2, 2) == 4;
  }

  lemma LowTwo(x: nat)
    requires Aligned(x, 2)
    ensures InvertLowestOne(x + 2) == x
  {
    assert Pow(2, 1) == 2;
    InvertTop(x, 1);
  }

  /** Its lowest one is bit 2. */
  lemma FourDescent(p: nat, h: nat, j: nat, t: nat, x: nat)
    requires Middle(p, h, j, t) && Aligned(x, 3) && x + 4 < Pow(2, j)
    ensures WalkSteps(h + (x + 4), t) <= WalkSteps(h, t) + (j + 3) / 2
  {
    hide InvertLowestOne, Aligned, WalkNext, WalkSteps, Pow;
    AlignedEven(x, 3);
    AlignedLess(x, 3, 2);
    LowTwo(x);
    LowFour(x);
    FourBelow(x, j);
    SmallStep(p, h, j, t, x + 4);
    TwoDown(p, h, j, t, x + 2);
    MiddleFacts(p, h, j, t);
    StepCounts(h + (x + 4), t);
    if x == 0 {
      if WalkNext(h + 4, t) == h + 2 + 1 {
        OddStep(p, h, j, t, 2);
        StepCounts(h + 2 + 1, t);
        NearEnd(p + 1, t);
      }
    } else {
      InvertAligned(x, 3);
      FourEight();
      OddStep(p, h, j, t, x + 2);
      StepCounts(h + (x + 2) + 1, t);
      OddDescent(p, h, j, t, InvertLowestOne(x), 4);
    }
  }

  lemma LowFour(x: nat)
    requires Aligned(x, 3)
    ensures InvertLowestOne(x + 4) == x
  {
    assert Pow(2, 2) == 4;
    InvertTop(x, 2);
  }

  lemma FourBelow(x: nat, j: nat)
    requires Aligned(x, 3) && x + 4 < Pow(2, j)
    ensures j >= 3 && (x > 0 ==> j >= 4)
  {
    hide Aligned;
    FourEight();
    if j < 3 {
      PowMono(2, j, 2);
    }
    BelowPower(x, 3, j);
  }

  /** From anywhere above the middle. */
  lemma Descent(p: nat, h: nat, j: nat, t: nat, r: nat)
    requires Middle(p, h, j, t) && 0 < r < Pow(2, j)
    ensures WalkSteps(h + r, t) <= WalkSteps(h, t) + Cost(j)
  {
    hide InvertLowestOne, Aligned, WalkNext, WalkSteps, Pow, Middle;
    OneBelow(r, j);
    var x, low := LowBits(r);
    if low == 1 {
      OddDescent(p, h, j, t, x, 1);
    } else if low == 2 {
      TwoDescent(p, h, j, t, x);
    } else if low == 4 {
      FourDescent(p, h, j, t, x);
    } else {
      EightDescent(p, h, j, t, x, 3);
    }
  }

  /** The lowest one of a number, if it is among the last three bits. */
  lemma LowBits(r: nat) returns (x: nat, low: nat)
    ensures r == x + low && low in {0, 1, 2, 4} && Aligned(x, if low == 1 then 1 else if low == 2 then 2 else 3)
  {
    hide Aligned;
    var q := r / 2;
    var q1 := q / 2;
    var q2 := q1 / 2;
    TimesEight(q);
    TimesEight(q1);
    TimesEight(q2);
    if r != 2 * q {
      x, low := 2 * q, 1;
    } else if q != 2 * q1 {
      x, low := 2 * (2 * q1), 2;
    } else if q1 != 2 * q2 {
      x, low := 2 * (2 * (2 * q2)), 4;
    } else {
      x, low := r, 0;
    }
  }

  lemma OneBelow(r: nat, j: nat)
    requires 0 < r < Pow(2, j)
    ensures j > 0
  {
    PowZero(2);
  }

  lemma {:induction false} ZeroAligned(k: nat)
    ensures Aligned(0, k)
  {
    if k > 0 {
      ZeroAligned(k - 1);
    }
  }

  lemma AnyAligned(r: nat)
    ensures Aligned(r, 0)
  {
  }

  // ------------------------------------------------------------------
  // From the end of a block
  // ------------------------------------------------------------------

  /** The shortcut from the end of a block leaves the block, so the walk goes to the parent. */
  lemma TopStep(p: nat, m: nat, t: nat)
    requires Aligned(p, m) && m > 0 && p <= t < p + Pow(2, m)
    ensures var w := p + Pow(2, m); WalkNext(w, t) == t || WalkNext(w, t) == w - 1
  {
    var w := p + Pow(2, m);
    AlignedPower(p, m);
    AlignedEven(w, m);
    InvertAligned(w, m);
    EvenSkip(w);
  }

  lemma HalfBlock(p: nat, m: nat, t: nat)
    requires Aligned(p, m) && m > 0 && p <= t <= p + Pow(2, m - 1)
    ensures Middle(p, p + Pow(2, m - 1), m - 1, t) && Pow(2, m) == 2 * Pow(2, m - 1)
  {
  }

  /** To the middle of the block. */
  lemma TopDown(p: nat, m: nat, t: nat)
    requires Aligned(p, m) && m >= 2 && p <= t <= p + Pow(2, m - 1)
    ensures WalkSteps(p + Pow(2, m), t) <= WalkSteps(p + Pow(2, m - 1), t) + (m + 3) / 2
  {
    hide Aligned, WalkNext, WalkSteps, InvertLowestOne, Pow, Middle;
    HalfBlock(p, m, t);
    TwicePow(m - 1);
    TopStep(p, m, t);
    var h, w, r := p + Pow(2, m - 1), p + Pow(2, m), Pow(2, m - 1) - 2;
    StepCounts(w, t);
    if WalkNext(w, t) == t {
      NearEnd(t, t);
    } else {
      TimesEight(Pow(2, m - 2) - 1);
      OddDescent(p, h, m - 1, t, r, 1);
    }
  }

  /** From the middle of a block its start is one shortcut away. */
  lemma MiddleToStart(p: nat, h: nat, j: nat)
    requires Middle(p, h, j, p)
    ensures WalkSteps(h, p) <= 1
  {
    hide Aligned, InvertLowestOne, Pow;
    MiddleFacts(p, h, j, p);
    if j == 0 {
      PowZero(2);
      NearEnd(h, p);
    } else {
      EvenSkip(h);
      StepCounts(h, p);
    }
  }

  /** To the start of the block. */
  lemma TopToStart(p: nat, m: nat)
    requires Aligned(p, m)
    ensures WalkSteps(p + Pow(2, m), p) <= m + 1
  {
    hide Aligned, WalkNext, WalkSteps, InvertLowestOne, Pow, Middle;
    PowZero(2);
    PowOne(2);
    if m == 0 {
      NearEnd(p + 1, p);
    } else if m == 1 {
      TopStep(p, 1, p);
      StepCounts(p + 2, p);
      NearEnd(p + 1, p);
    } else {
      TopDown(p, m, p);
      HalfBlock(p, m, p);
      MiddleToStart(p, p + Pow(2, m - 1), m - 1);
    }
  }

  /** Next to the start: an odd number of ones to clear ends there. */
  lemma {:induction false} OnesJump(p: nat, h: nat, j: nat, a: nat)
    requires Middle(p, h, j, p + 1) && 0 < a < j && (j - a) % 2 == 1
    ensures Pow(2, a) <= Pow(2, j)
    ensures WalkSteps(h + (Pow(2, j) - Pow(2, a)) + 1, p + 1) <= (j - a + 1) / 2
    decreases j - a
  {
    hide InvertLowestOne, Aligned, WalkNext, WalkSteps, Pow, Middle;
    OnesAligned(j, a);
    var r := Pow(2, j) - Pow(2, a);
    AlignedEven(r, a);
    MoreThanNone(j, a);
    OddStep(p, h, j, p + 1, r);
    TwoDown(p, h, j, p + 1, r);
    MiddleFacts(p, h, j, p + 1);
    MiddleAbove(p, h, j);
    StepCounts(h + r + 1, p + 1);
    OnesShrink(j, a);
    if a + 1 == j {
      NearEnd(p + 1, p + 1);
    } else {
      MoreThanNone(j, a + 1);
      OnesShrink(j, a + 1);
      OnesJump(p, h, j, a + 2);
    }
  }

  lemma MoreThanNone(j: nat, a: nat)
    requires a < j
    ensures Pow(2, a) < Pow(2, j)
  {
    PowMono(2, a + 1, j);
  }

  lemma MiddleAbove(p: nat, h: nat, j: nat)
    requires Middle(p, h, j, p + 1)
    ensures h >= p + 1
  {
  }

  lemma TopToNext(p: nat, m: nat)
    requires Aligned(p, m)
    ensures WalkSteps(p + Pow(2, m), p + 1) <= if m % 2 == 1 then (m + 1) / 2 else m + 1
  {
    hide Aligned, WalkNext, WalkSteps, InvertLowestOne, Pow, Middle;
    PowZero(2);
    PowOne(2);
    if m == 0 {
      NearEnd(p + 1, p + 1);
    } else if m == 1 {
      TopStep(p, 1, p + 1);
      StepCounts(p + 2, p + 1);
      NearEnd(p + 1, p + 1);
    } else if m % 2 == 1 {
      OddTopToNext(p, m);
    } else {
      MoreThanNone(m - 1, 0);
      TopDown(p, m, p + 1);
      AlignedLess(p, m, m - 1);
      TopToNext(p, m - 1);
    }
  }

  lemma OddTopToNext(p: nat, m: nat)
    requires Aligned(p, m) && m % 2 == 1 && m >= 3
    ensures WalkSteps(p + Pow(2, m), p + 1) <= (m + 1) / 2
  {
    hide Aligned, WalkNext, WalkSteps, InvertLowestOne, Pow, Middle;
    PowZero(2);
    PowOne(2);
    MoreThanNone(m - 1, 0);
    HalfBlock(p, m, p + 1);
    TopStep(p, m, p + 1);
    StepCounts(p + Pow(2, m), p + 1);
    NearEnd(p + 1, p + 1);
    OnesJump(p, p + Pow(2, m - 1), m - 1, 1);
  }

  /** The longest walk from the end of a block of 2^m heights, m > 2. */
  function Peak(m: nat): int { (m * m + 6 * m - 7) / 4 }

  lemma Rising(m: nat)
    requires m > 0
    ensures Peak(m) + 2 + m / 2 == Peak(m + 1)
  {
    var k := m / 2;
    if m == 2 * k {
      assert m * m == 4 * (k * k);
    } else {
      assert m == 2 * k + 1 && m * m == 4 * (k * k + k) + 1;
    }
  }

  lemma {:induction false} PeakGrows(m: nat)
    requires m >= 2
    ensures Peak(m) >= m && (m >= 3 ==> Peak(m) >= m + 1)
  {
    hide Peak;
    if m == 2 {
      SmallPeaks();
    } else {
      PeakGrows(m - 1);
      Rising(m - 1);
    }
  }

  lemma SmallPeaks()
    ensures Peak(1) == 0 && Peak(2) == 2 && Peak(3) == 5
  {
  }

  /** Two or more heights above the start of the block. */
  lemma {:induction false} FromTop(p: nat, m: nat, t: nat)
    requires Aligned(p, m) && m > 0 && p + 2 <= t <= p + Pow(2, m)
    ensures WalkSteps(p + Pow(2, m), t) <= Peak(m)
    decreases m
  {
    hide Aligned, WalkNext, WalkSteps, InvertLowestOne, Peak, Pow;
    SmallPeaks();
    PowOne(2);
    if m == 1 {
      NearEnd(t, t);
    } else {
      TwicePow(m);
      var h := p + Pow(2, m - 1);
      AlignedLess(p, m, m - 1);
      AlignedPower(p, m - 1);
      Rising(m - 1);
      PeakGrows(m);
      if t <= h {
        TopDown(p, m, t);
        FromTop(p, m - 1, t);
      } else if t == h + 1 {
        TopToNext(h, m - 1);
      } else {
        FromTop(h, m - 1, t);
      }
    }
  }

  /** Anywhere in the block. */
  lemma TopAnywhere(p: nat, m: nat, t: nat)
    requires Aligned(p, m) && p <= t <= p + Pow(2, m)
    ensures WalkSteps(p + Pow(2, m), t) <= m + 1 || (m > 0 && t >= p + 2 && WalkSteps(p + Pow(2, m), t) <= Peak(m))
  {
    hide Aligned, WalkSteps, Peak, Pow;
    if t == p {
      TopToStart(p, m);
    } else if t == p + 1 {
      TopToNext(p, m);
    } else {
      PowZero(2);
      FromTop(p, m, t);
    }
  }

  // ------------------------------------------------------------------
  // All walks
  // ------------------------------------------------------------------

  /** The longest walk within a block of 2^m heights. */
  function Most(m: nat): int { if m < 2 then m else Peak(m - 1) + Cost(m - 1) }

  lemma MostGrows(m: nat)
    requires m >= 2
    ensures Most(m - 1) <= Most(m) && (m >= 3 ==> Most(m) >= m)
  {
    hide Peak;
    SmallPeaks();
    if m >= 3 {
      Rising(m - 2);
      PeakGrows(m - 1);
    }
  }

  /** Across the middle of a block of eight. */
  lemma AcrossEight(p: nat, r: nat, t: nat)
    requires Aligned(p, 3) && p <= t <= p + 1 && 0 < r < 4
    ensures WalkSteps(p + 4 + r, t) <= 4
  {
    hide Aligned, WalkNext, WalkSteps, InvertLowestOne, Middle;
    FourEight();
    assert Pow(2, 1) == 2;
    var h := p + 4;
    HalfBlock(p, 3, t);
    AlignedLess(p, 3, 2);
    TopAnywhere(p, 2, t);
    MiddleFacts(p, h, 2, t);
    NothingCleared();
    InvertBelow(p);
    StepCounts(h + r, t);
    NearEnd(p + 1, t);
    if InvertLowestOne(p) + 1 >= t {
      NearEnd(InvertLowestOne(p) + 1, t);
    }
    OddStep(p, h, 2, t, 0);
    TwoDown(p, h, 2, t, 0);
    StepCounts(h + 1, t);
    if r == 2 {
      InvertTop0();
      SmallStep(p, h, 2, t, 2);
    } else if r == 3 {
      InvertTop0();
      OddStep(p, h, 2, t, 2);
      TwoDown(p, h, 2, t, 2);
    }
  }

  lemma InvertTop0()
    ensures InvertLowestOne(2) == 0
  {
    assert Pow(2, 1) == 2;
    ZeroAligned(2);
    InvertTop(0, 1);
  }

  /** Across the middle of a block of four. */
  lemma AcrossFour(p: nat, t: nat)
    requires Aligned(p, 2) && p <= t <= p + 1
    ensures WalkSteps(p + 3, t) <= 2
  {
    hide Aligned, WalkNext, WalkSteps, InvertLowestOne, Middle;
    FourEight();
    assert Pow(2, 1) == 2;
    HalfBlock(p, 2, t);
    ZeroAligned(1);
    OddDescent(p, p + 2, 1, t, 0, 1);
    if t == p {
      MiddleToStart(p, p + 2, 1);
    } else {
      AlignedLess(p, 2, 1);
      TopToNext(p, 1);
    }
  }

  lemma Across(p: nat, m: nat, h: nat, w: nat, t: nat)
    requires Aligned(p, m) && m >= 2 && h == p + Pow(2, m - 1) && p <= t < h < w < p + Pow(2, m)
    ensures WalkSteps(w, t) <= Most(m)
  {
    hide Aligned, WalkSteps, Peak, Pow, Middle;
    HalfBlock(p, m, t);
    AlignedLess(p, m, m - 1);
    FourEight();
    PowOne(2);
    SmallPeaks();
    if t <= p + 1 && m == 2 {
      AcrossFour(p, t);
    } else if t <= p + 1 && m == 3 {
      AcrossEight(p, w - h, t);
    } else {
      Descent(p, h, m - 1, t, w - h);
      if t >= p + 2 {
        FromTop(p, m - 1, t);
      } else {
        TopAnywhere(p, m - 1, t);
        PeakGrows(m - 1);
      }
    }
  }

  lemma {:induction false} WithinBlock(p: nat, m: nat, w: nat, t: nat)
    requires Aligned(p, m) && p <= t <= w < p + Pow(2, m)
    ensures WalkSteps(w, t) <= Most(m)
    decreases m
  {
    hide Aligned, WalkSteps, Peak, Pow, Cost;
    PowZero(2);
    PowOne(2);
    if m < 2 {
      NearEnd(w, t);
      NearEnd(t, t);
    } else {
      TwicePow(m);
      var h := p + Pow(2, m - 1);
      AlignedLess(p, m, m - 1);
      AlignedPower(p, m - 1);
      MostGrows(m);
      if w < h {
        WithinBlock(p, m - 1, w, t);
      } else if h <= t {
        WithinBlock(h, m - 1, w, t);
      } else if w == h {
        TopAnywhere(p, m - 1, t);
        MostBasics(m);
      } else {
        Across(p, m, h, w, t);
      }
    }
  }

  lemma MostBasics(m: nat)
    requires m >= 2
    ensures Peak(m - 1) <= Most(m) && Most(2) == 2
  {
    SmallPeaks();
  }

  /** From any height below 2^k to any lower one. */
  lemma WalkShort(w: nat, t: nat, k: nat)
    requires t <= w < Pow(2, k)
    ensures WalkSteps(w, t) <= Most(k)
    ensures k >= 9 ==> WalkSteps(w, t) <= k * k / 4 + 2 * k - 7
  {
    hide Aligned, WalkSteps;
    ZeroAligned(k);
    WithinBlock(0, k, w, t);
    if k >= 9 {
      MostClosed(k);
    }
  }

  lemma MostClosed(k: nat)
    requires k >= 9
    ensures Most(k) == k * k / 4 + 2 * k - 7
  {
    var n := k - 1;
    assert n * n == k * k - 2 * k + 1;
  }

  // ------------------------------------------------------------------
  // Walks that take that long
  // ------------------------------------------------------------------

  /** Ones from bit `a` up to bit `m`. */
  lemma {:induction false} OnesAligned(m: nat, a: nat)
    requires a <= m
    ensures Pow(2, a) <= Pow(2, m) && Aligned(Pow(2, m) - Pow(2, a), a)
  {
    hide Pow, Aligned;
    PowMono(2, a, m);
    if a == 0 {
      AnyAligned(Pow(2, m) - Pow(2, a));
    } else {
      OnesAligned(m - 1, a - 1);
      TwicePow(m);
      TwicePow(a);
      AlignedTwice(Pow(2, m - 1) - Pow(2, a - 1), a - 1);
    }
  }

  lemma OnesShrink(m: nat, a: nat)
    requires a < m
    ensures Pow(2, a + 1) <= Pow(2, m)
    ensures InvertLowestOne(Pow(2, m) - Pow(2, a)) == Pow(2, m) - Pow(2, a + 1)
  {
    hide InvertLowestOne, Aligned, Pow;
    OnesAligned(m, a + 1);
    TwicePow(a + 1);
    InvertTop(Pow(2, m) - Pow(2, a + 1), a);
  }

  lemma PowerMiddle(m: nat)
    requires m > 0
    ensures Middle(0, Pow(2, m), m, 2)
  {
    hide Aligned;
    TwicePow(m);
    ZeroAligned(m + 1);
  }

  /** Towards height 2, the shortcuts from 2^(m+1) - 2^a + 1 clear two ones a step. */
  lemma {:induction false} OnesDescent(m: nat, a: nat)
    requires 0 < a <= m
    ensures Pow(2, a) <= Pow(2, m)
    ensures WalkSteps(Pow(2, m) + (Pow(2, m) - Pow(2, a)) + 1, 2) == WalkSteps(Pow(2, m), 2) + 1 + (m - a + 1) / 2
    decreases m - a
  {
    hide InvertLowestOne, Aligned, WalkNext, WalkSteps, Pow, Middle;
    var h := Pow(2, m);
    OnesAligned(m, a);
    var r := h - Pow(2, a);
    AlignedEven(r, a);
    PowerMiddle(m);
    NothingCleared();
    OddStep(0, h, m, 2, r);
    TwoDown(0, h, m, 2, r);
    StepCounts(h + r + 1, 2);
    if a < m {
      OnesShrink(m, a);
      if a + 1 < m {
        OnesShrink(m, a + 1);
        TwicePow(a + 2);
        OnesDescent(m, a + 2);
      } else {
        TwicePow(m);
        EvenStep(0, h, m, 2, r);
        StepCounts(h + r, 2);
      }
    }
  }

  lemma NothingCleared()
    ensures InvertLowestOne(0) == 0
  {
  }

  lemma PowerStep(j: nat)
    requires j > 1
    ensures Pow(2, j) > 2 && WalkNext(Pow(2, j), 2) == Pow(2, j) - 1
  {
    hide InvertLowestOne, Aligned;
    ZeroAligned(j + 1);
    InvertTop(0, j);
    EvenSkip(Pow(2, j));
  }

  /** The walk from height 2^j to height 2, step for step. */
  lemma {:induction false} FromPower(j: nat)
    requires j > 0
    ensures WalkSteps(Pow(2, j), 2) == Peak(j)
  {
    hide InvertLowestOne, WalkNext, WalkSteps, Pow;
    PowOne(2);
    if j == 1 {
      NearEnd(2, 2);
    } else {
      PowerStep(j);
      StepCounts(Pow(2, j), 2);
      TwicePow(j);
      OnesDescent(j - 1, 1);
      FromPower(j - 1);
      Rising(j - 1);
    }
  }

  /** Ones above bit 2 are cleared one at a time. */
  lemma {:induction false} OnesEight(m: nat, a: nat)
    requires 3 <= a <= m
    ensures Pow(2, a) <= Pow(2, m) && WalkSteps(Pow(2, m) + (Pow(2, m) - Pow(2, a)), 2) == WalkSteps(Pow(2, m), 2) + (m - a)
    decreases m - a
  {
    hide InvertLowestOne, Aligned, WalkNext, WalkSteps, Pow, Middle;
    OnesAligned(m, a);
    if a < m {
      var h, r := Pow(2, m), Pow(2, m) - Pow(2, a);
      PowerMiddle(m);
      AlignedLess(r, a, 3);
      MoreThanNone(m, a);
      EightStep(0, h, m, 2, r);
      TwicePow(m);
      StepCounts(h + r, 2);
      OnesShrink(m, a);
      OnesEight(m, a + 1);
    }
  }

  /** The walk from 2^k - 8 to 2 is the longest one below 2^k. */
  lemma WalkAttained(k: nat)
    requires k >= 9
    ensures Pow(2, k) >= 8 && WalkSteps(Pow(2, k) - 8, 2) == Most(k) == k * k / 4 + 2 * k - 7
  {
    hide WalkSteps, Peak, Pow;
    FourEight();
    PowMono(2, 3, k - 1);
    TwicePow(k);
    OnesEight(k - 1, 3);
    FromPower(k - 1);
    MostClosed(k);
  }

  /** No multiple of the number of bits bounds the walk: 2^(4 c + 4) has 4 c + 5 bits. */
  lemma NotLogarithmic(c: nat)
    ensures WalkSteps(Pow(2, 4 * c + 4), 2) > c * (4 * c + 5)
  {
    hide WalkSteps, Pow;
    FromPower(4 * c + 4);
    var j := 4 * c + 4;
    assert j * j == 16 * (c * c) + 32 * c + 16;
  }
}
