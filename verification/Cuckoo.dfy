/**
 The cuckoo cache as a value: a table with eight possible places for each
 element, flags that say which places may be overwritten, and flags that say
 which elements are recent.  `F` is the kind of the recency flag: booleans in
 the cache itself, insert numbers where the age of elements is reasoned about.
 */
module Cuckoo {
  import opened Basics
  import opened Limbs

  const WAYS: nat := 8

  datatype Config<!T> = Config(size: nat, epochSize: nat, depthLimit: nat, hash: (nat, T) -> nat, default_: T)

  datatype State<T, F> = State(table: seq<T>, dead: seq<bool>, recent: seq<F>, counter: nat)

  /** Place number `k` of element `e`: the 32-bit hash scaled down to the size of the table. */
  function Loc<T>(c: Config<T>, e: T, k: nat): (loc: nat)
    ensures c.size > 0 ==> loc < c.size
  {
    Scaled(c.hash(k, e) % BASE, c.size)
  }

  ghost predicate Shape<T, F>(c: Config<T>, s: State<T, F>) {
    c.size >= 2 && |s.table| == |s.dead| == |s.recent| == c.size
  }

  // ------------------------------------------------------------------
  // The operations
  // ------------------------------------------------------------------

  /** The first place from `k` on that holds `e`, or WAYS. */
  function FindLoc<T(==)>(c: Config<T>, table: seq<T>, e: T, k: nat): (r: nat)
    requires |table| == c.size > 0 && k <= WAYS
    ensures k <= r <= WAYS && (r < WAYS ==> table[Loc(c, e, r)] == e)
    ensures forall j :: k <= j < r ==> table[Loc(c, e, j)] != e
    decreases WAYS - k
  {
    if k == WAYS || table[Loc(c, e, k)] == e then k else FindLoc(c, table, e, k + 1)
  }

  /** The first place from `k` on that may be overwritten, or WAYS. */
  function FreeLoc<T>(c: Config<T>, dead: seq<bool>, e: T, k: nat): (r: nat)
    requires |dead| == c.size > 0 && k <= WAYS
    ensures k <= r <= WAYS && (r < WAYS ==> dead[Loc(c, e, r)])
    ensures forall j :: k <= j < r ==> !dead[Loc(c, e, j)]
    decreases WAYS - k
  {
    if k == WAYS || dead[Loc(c, e, k)] then k else FreeLoc(c, dead, e, k + 1)
  }

  /** The number of the place `loc`, or WAYS. */
  function PlaceNumber<T>(c: Config<T>, e: T, loc: int, k: nat): (r: nat)
    requires k <= WAYS
    ensures k <= r <= WAYS
    decreases WAYS - k
  {
    if k == WAYS || Loc(c, e, k) == loc then k else PlaceNumber(c, e, loc, k + 1)
  }

  /** The place that an element pushed out of `loc` takes: the one after `loc` among its own. */
  function NextPlace<T>(c: Config<T>, e: T, loc: int): (r: nat)
    ensures c.size > 0 ==> r < c.size
  {
    Loc(c, e, (1 + PlaceNumber(c, e, loc, 0)) % WAYS)
  }

  function Put<T, F>(s: State<T, F>, loc: nat, e: T, f: F): (r: State<T, F>)
    requires loc < |s.table| == |s.dead| == |s.recent|
    ensures |r.table| == |r.dead| == |r.recent| == |s.table|
  {
    s.(table := s.table[loc := e], dead := s.dead[loc := false], recent := s.recent[loc := f])
  }

  datatype Outcome<T, F> = Outcome(s: State<T, F>, dropped: T, ranOut: bool)

  /** Pushes elements from place to place until one falls on a free one, at most `depth` times.
      `e` with flag `f` is the element in hand, `last` the place it was pushed from. */
  function Displace<T, F>(c: Config<T>, s: State<T, F>, e: T, f: F, last: int, depth: nat): (r: Outcome<T, F>)
    requires Shape(c, s)
    ensures Shape(c, r.s)
    decreases depth
  {
    if depth == 0 then Outcome(s, e, true)
    else
      var k := FreeLoc(c, s.dead, e, 0);
      if k < WAYS then Outcome(Put(s, Loc(c, e, k), e, f), s.table[Loc(c, e, k)], false)
      else
        var loc := NextPlace(c, e, last);
        Displace(c, Put(s, loc, e, f), s.table[loc], s.recent[loc], loc, depth - 1)
  }

  /** The rest of an insert after the epoch check, with `f` for the flag of a recent element. */
  function Store<T(==), F>(c: Config<T>, s: State<T, F>, e: T, f: F): (r: Outcome<T, F>)
    requires Shape(c, s)
    ensures Shape(c, r.s)
  {
    var k := FindLoc(c, s.table, e, 0);
    if k < WAYS then Outcome(Put(s, Loc(c, e, k), e, f), e, false)
    else Displace(c, s, e, f, -1, c.depthLimit)
  }

  /** How many of the first `n` places hold recent elements that are not discardable. */
  function RecentCount(dead: seq<bool>, recent: seq<bool>, n: nat): (r: nat)
    requires n <= |dead| == |recent|
    ensures r <= n
  {
    if n == 0 then 0 else RecentCount(dead, recent, n - 1) + if recent[n - 1] && !dead[n - 1] then 1 else 0
  }

  /** Places whose element is not recent become discardable; the others are not recent any more. */
  function TurnOver(dead: seq<bool>, recent: seq<bool>): seq<bool>
    requires |dead| == |recent|
  {
    seq(|dead|, i requires 0 <= i < |dead| => dead[i] || !recent[i])
  }

  function EpochCheck<T>(c: Config<T>, s: State<T, bool>): (r: State<T, bool>)
    requires Shape(c, s)
    ensures Shape(c, r) && r.table == s.table
  {
    if s.counter != 0 then s.(counter := s.counter - 1)
    else
      var n := RecentCount(s.dead, s.recent, c.size);
      if n >= c.epochSize
      then s.(dead := TurnOver(s.dead, s.recent), recent := seq(c.size, _ => false), counter := c.epochSize)
      else s.(counter := Max(1, Max(c.epochSize / 16, c.epochSize - n)))
  }

  function Insert<T(==)>(c: Config<T>, s: State<T, bool>, e: T): (r: Outcome<T, bool>)
    requires Shape(c, s)
    ensures Shape(c, r.s)
  {
    Store(c, EpochCheck(c, s), e, true)
  }

  predicate Contains<T(==), F>(c: Config<T>, s: State<T, F>, e: T)
    requires Shape(c, s)
  {
    FindLoc(c, s.table, e, 0) < WAYS
  }

  /** The state after a lookup that may mark what it found as discardable. */
  function Look<T(==), F>(c: Config<T>, s: State<T, F>, e: T, erase: bool): (r: State<T, F>)
    requires Shape(c, s)
    ensures Shape(c, r) && r.table == s.table
  {
    var k := FindLoc(c, s.table, e, 0);
    if k < WAYS && erase then s.(dead := s.dead[Loc(c, e, k) := true]) else s
  }

  function Setup<T>(c: Config<T>): (s: State<T, bool>)
    ensures c.size >= 2 ==> Shape(c, s)
  {
    State(seq(c.size, _ => c.default_), seq(c.size, _ => true), seq(c.size, _ => false), c.epochSize)
  }

  // ------------------------------------------------------------------
  // Which element makes room
  // ------------------------------------------------------------------

  lemma {:induction false} NoSuchPlace<T>(c: Config<T>, e: T, loc: int, k: nat)
    requires k <= WAYS && forall j :: k <= j < WAYS ==> Loc(c, e, j) != loc
    ensures PlaceNumber(c, e, loc, k) == WAYS
    decreases WAYS - k
  {
    if k < WAYS {
      NoSuchPlace(c, e, loc, k + 1);
    }
  }

  /** A newcomer that finds no free place takes its second place, number 1; it takes its first one exactly when
      the two are the same. */
  lemma FirstDisplaced<T, F>(c: Config<T>, s: State<T, F>, e: T, f: F, depth: nat)
    requires Shape(c, s) && depth > 0 && FreeLoc(c, s.dead, e, 0) == WAYS
    ensures (1 + PlaceNumber(c, e, -1, 0)) % WAYS == 1
    ensures var loc := Loc(c, e, 1);
            && Displace(c, s, e, f, -1, depth) == Displace(c, Put(s, loc, e, f), s.table[loc], s.recent[loc], loc, depth - 1)
            && (NextPlace(c, e, -1) == Loc(c, e, 0) <==> Loc(c, e, 1) == Loc(c, e, 0))
  {
    NoSuchPlace(c, e, -1, 0);
  }

  /** A hash whose first two places differ in a table of two. */
  function Spread(k: nat, e: int): nat { if k == 0 then 0 else BASE / 2 }

  lemma SecondPlaceForExample(epochSize: nat, depthLimit: nat)
    ensures var c := Config(2, epochSize, depthLimit, Spread, 0);
            NextPlace(c, 7, -1) == 1 && Loc(c, 7, 0) == 0
  {
    NoSuchPlace(Config(2, epochSize, depthLimit, Spread, 0), 7, -1, 0);
  }

  /** The next displacement leaves the element just put in alone exactly when the one it pushed out has another
      place after this one; if not, the two change places again. */
  lemma JustPutStays<T, F>(c: Config<T>, s: State<T, F>, e: T, f: F, last: int, depth: nat)
    requires Shape(c, s) && depth > 1 && FreeLoc(c, s.dead, e, 0) == WAYS
    requires var loc := NextPlace(c, e, last);
             FreeLoc(c, Put(s, loc, e, f).dead, s.table[loc], 0) == WAYS
    ensures var loc := NextPlace(c, e, last);
            var s1, x, g, next := Put(s, loc, e, f), s.table[loc], s.recent[loc], NextPlace(c, s.table[loc], loc);
            var s2 := Put(s1, next, x, g);
            && Displace(c, s, e, f, last, depth) == Displace(c, s2, s1.table[next], s1.recent[next], next, depth - 2)
            && (next != loc ==> s2.table[loc] == e && s2.recent[loc] == f)
            && (next == loc ==> s1.table[next] == e && s2.table == s.table)
  {
    hide FreeLoc, PlaceNumber, Loc;
  }

  /** With one place for everything, the element just put in is the next to be pushed out. */
  lemma JustPutGoesForExample(epochSize: nat, depthLimit: nat, x: int, last: int)
    ensures var c := Config(2, epochSize, depthLimit, (k, e) => 0, 0); NextPlace(c, x, last) == 0
  {
  }

  // ------------------------------------------------------------------
  // Every element is in one of its own places, and only once
  // ------------------------------------------------------------------

  ghost predicate Own<T>(c: Config<T>, e: T, i: int) { exists k :: 0 <= k < WAYS && Loc(c, e, k) == i }

  /** Whatever is live, and whatever is not the default element, is in a place of its own. */
  ghost predicate Housed<T, F>(c: Config<T>, s: State<T, F>)
    requires Shape(c, s)
  {
    forall i :: 0 <= i < c.size && (s.table[i] != c.default_ || !s.dead[i]) ==> Own(c, s.table[i], i)
  }

  ghost predicate Once<T>(c: Config<T>, table: seq<T>) {
    forall i, j :: 0 <= i < j < |table| && table[i] == table[j] ==> table[i] == c.default_
  }

  ghost predicate Orderly<T, F>(c: Config<T>, s: State<T, F>) { Shape(c, s) && Housed(c, s) && Once(c, s.table) }

  lemma SetupOrderly<T>(c: Config<T>)
    requires c.size >= 2
    ensures Orderly(c, Setup(c))
  {
  }

  /** Looking at an element's own places finds it wherever it is. */
  lemma ContainsExactly<T(!new), F>(c: Config<T>, s: State<T, F>, e: T)
    requires Orderly(c, s)
    ensures Contains(c, s, e) <==> exists k :: 0 <= k < WAYS && s.table[Loc(c, e, k)] == e
    ensures e != c.default_ ==> (Contains(c, s, e) <==> e in s.table)
  {
    var k := FindLoc(c, s.table, e, 0);
    if e != c.default_ && e in s.table {
      var i :| 0 <= i < c.size && s.table[i] == e;
      assert Own(c, e, i);
      var j :| 0 <= j < WAYS && Loc(c, e, j) == i;
    }
  }

  lemma PutOrderly<T, F>(c: Config<T>, s: State<T, F>, e: T, f: F, k: nat)
    requires Orderly(c, s) && k < WAYS && (e == c.default_ || e !in s.table || s.table[Loc(c, e, k)] == e)
    ensures Orderly(c, Put(s, Loc(c, e, k), e, f))
  {
    var loc := Loc(c, e, k);
    var t := s.table[loc := e];
    assert Own(c, e, loc);
    forall i, j | 0 <= i < j < |t| && t[i] == t[j] ensures t[i] == c.default_ {
      if i != loc && j != loc {
        assert s.table[i] == s.table[j];
      }
    }
  }

  /** The element in hand is not in the table, and neither is the one it pushes out. */
  lemma HandAbsent<T, F>(c: Config<T>, s: State<T, F>, e: T, f: F, loc: nat)
    requires Orderly(c, s) && loc < c.size && (e == c.default_ || e !in s.table)
    ensures var x := s.table[loc]; x == c.default_ || x !in Put(s, loc, e, f).table
  {
    var x, t := s.table[loc], s.table[loc := e];
    if x != c.default_ {
      forall i | 0 <= i < |t| ensures t[i] != x {
        if i != loc {
          assert s.table[i] == t[i];
          assert i < loc || loc < i;
        }
      }
    }
  }

  lemma {:induction false} DisplaceOrderly<T, F>(c: Config<T>, s: State<T, F>, e: T, f: F, last: int, depth: nat)
    requires Shape(c, s) && Orderly(c, s) && (e == c.default_ || e !in s.table)
    ensures Orderly(c, Displace(c, s, e, f, last, depth).s)
    decreases depth
  {
    hide Orderly, Loc, FreeLoc, PlaceNumber, Put;
    if depth > 0 {
      var k := FreeLoc(c, s.dead, e, 0);
      if k < WAYS {
        PutOrderly(c, s, e, f, k);
      } else {
        var n := (1 + PlaceNumber(c, e, last, 0)) % WAYS;
        var loc := Loc(c, e, n);
        PutOrderly(c, s, e, f, n);
        HandAbsent(c, s, e, f, loc);
        DisplaceOrderly(c, Put(s, loc, e, f), s.table[loc], s.recent[loc], loc, depth - 1);
      }
    }
  }

  lemma StoreOrderly<T(!new), F>(c: Config<T>, s: State<T, F>, e: T, f: F)
    requires Orderly(c, s)
    ensures Orderly(c, Store(c, s, e, f).s)
  {
    var k := FindLoc(c, s.table, e, 0);
    if k < WAYS {
      PutOrderly(c, s, e, f, k);
    } else {
      if e != c.default_ {
        ContainsExactly(c, s, e);
      }
      DisplaceOrderly(c, s, e, f, -1, c.depthLimit);
    }
  }

  // ------------------------------------------------------------------
  // One element comes in, one goes out
  // ------------------------------------------------------------------

  function One<T(==)>(x: T, e: T): nat { if x == e then 1 else 0 }

  lemma PutCounts<T, F>(s: State<T, F>, loc: nat, e: T, f: F, x: T)
    requires loc < |s.table| == |s.dead| == |s.recent|
    ensures multiset(Put(s, loc, e, f).table)[x] + One(x, s.table[loc]) == multiset(s.table)[x] + One(x, e)
  {
  }

  /** The table gains the element in hand and loses the one that is dropped. */
  lemma {:induction false} DisplaceCounts<T, F>(c: Config<T>, s: State<T, F>, e: T, f: F, last: int, depth: nat, x: T)
    requires Shape(c, s)
    ensures var r := Displace(c, s, e, f, last, depth);
            multiset(r.s.table)[x] + One(x, r.dropped) == multiset(s.table)[x] + One(x, e)
    decreases depth
  {
    hide FreeLoc, PlaceNumber, Loc, Put;
    if depth > 0 {
      var k := FreeLoc(c, s.dead, e, 0);
      if k < WAYS {
        PutCounts(s, Loc(c, e, k), e, f, x);
      } else {
        var loc := NextPlace(c, e, last);
        PutCounts(s, loc, e, f, x);
        DisplaceCounts(c, Put(s, loc, e, f), s.table[loc], s.recent[loc], loc, depth - 1, x);
      }
    }
  }

  /** An insert of an element that is not found changes the multiset of the table by that element and one other. */
  lemma StoreCounts<T(!new), F>(c: Config<T>, s: State<T, F>, e: T, f: F)
    requires Shape(c, s)
    ensures var r := Store(c, s, e, f);
            && (!Contains(c, s, e) ==>
                  forall x :: multiset(r.s.table)[x] + One(x, r.dropped) == multiset(s.table)[x] + One(x, e))
            && (Contains(c, s, e) ==> r.s.table == s.table)
  {
    hide Displace;
    forall x | !Contains(c, s, e)
      ensures var r := Store(c, s, e, f); multiset(r.s.table)[x] + One(x, r.dropped) == multiset(s.table)[x] + One(x, e)
    {
      DisplaceCounts(c, s, e, f, -1, c.depthLimit, x);
    }
  }

  // ------------------------------------------------------------------
  // A live element is lost only when the depth runs out
  // ------------------------------------------------------------------

  ghost predicate Live<T, F>(s: State<T, F>, x: T) {
    exists i :: 0 <= i < |s.table| && i < |s.dead| && s.table[i] == x && !s.dead[i]
  }

  /** Overwriting a discardable place. */
  lemma PutFree<T, F>(c: Config<T>, s: State<T, F>, loc: nat, e: T, f: F, x: T)
    requires Shape(c, s) && loc < c.size && s.dead[loc]
    ensures Live(Put(s, loc, e, f), x) <==> Live(s, x) || x == e
  {
    var s' := Put(s, loc, e, f);
    assert s'.table[loc] == e && !s'.dead[loc];
    if Live(s, x) {
      var i :| 0 <= i < |s.table| && i < |s.dead| && s.table[i] == x && !s.dead[i];
      assert s'.table[i] == x && !s'.dead[i];
    }
    if Live(s', x) && x != e {
      var i :| 0 <= i < |s'.table| && i < |s'.dead| && s'.table[i] == x && !s'.dead[i];
      assert s.table[i] == x && !s.dead[i];
    }
  }

  /** Taking the place of a live element: that one may be live no more. */
  lemma PutFull<T, F>(c: Config<T>, s: State<T, F>, loc: nat, e: T, f: F, x: T)
    requires Shape(c, s) && loc < c.size && !s.dead[loc]
    ensures Live(Put(s, loc, e, f), x) ==> Live(s, x) || x == e
    ensures Live(s, x) || x == e ==> Live(Put(s, loc, e, f), x) || x == s.table[loc]
    ensures Live(s, s.table[loc])
  {
    var s' := Put(s, loc, e, f);
    assert s'.table[loc] == e && !s'.dead[loc];
    if Live(s, x) {
      var i :| 0 <= i < |s.table| && i < |s.dead| && s.table[i] == x && !s.dead[i];
      assert i != loc ==> s'.table[i] == x && !s'.dead[i];
    }
    if Live(s', x) && x != e {
      var i :| 0 <= i < |s'.table| && i < |s'.dead| && s'.table[i] == x && !s'.dead[i];
      assert s.table[i] == x && !s.dead[i];
    }
  }

  lemma {:induction false} DisplaceLive<T, F>(c: Config<T>, s: State<T, F>, e: T, f: F, last: int, depth: nat, x: T)
    requires Shape(c, s)
    ensures var r := Displace(c, s, e, f, last, depth);
            && (Live(s, x) || x == e ==> Live(r.s, x) || (r.ranOut && x == r.dropped))
            && (Live(r.s, x) ==> Live(s, x) || x == e)
    decreases depth
  {
    hide Loc, PlaceNumber, Put, Live;
    if depth > 0 {
      var k := FreeLoc(c, s.dead, e, 0);
      if k < WAYS {
        PutFree(c, s, Loc(c, e, k), e, f, x);
      } else {
        var n := (1 + PlaceNumber(c, e, last, 0)) % WAYS;
        var loc := Loc(c, e, n);
        PutFull(c, s, loc, e, f, x);
        DisplaceLive(c, Put(s, loc, e, f), s.table[loc], s.recent[loc], loc, depth - 1, x);
      }
    }
  }

  /** After an insert exactly what was live and the new element are live, but for the one dropped when the depth ran out. */
  lemma StoreLive<T(!new), F>(c: Config<T>, s: State<T, F>, e: T, f: F, x: T)
    requires Shape(c, s)
    ensures var r := Store(c, s, e, f);
            && (Live(s, x) || x == e ==> Live(r.s, x) || (r.ranOut && x == r.dropped))
            && (Live(r.s, x) ==> Live(s, x) || x == e)
  {
    hide Displace;
    var k := FindLoc(c, s.table, e, 0);
    if k < WAYS {
      var s' := Put(s, Loc(c, e, k), e, f);
      if s.dead[Loc(c, e, k)] {
        PutFree(c, s, Loc(c, e, k), e, f, x);
      } else {
        PutFull(c, s, Loc(c, e, k), e, f, x);
        assert s'.table[Loc(c, e, k)] == e && !s'.dead[Loc(c, e, k)];
      }
    } else {
      DisplaceLive(c, s, e, f, -1, c.depthLimit, x);
    }
  }

  // ------------------------------------------------------------------
  // Aging: flags as insert numbers
  // ------------------------------------------------------------------

  /** The cache with the number of the insert that last touched each element in place of its recency flag.
      `now` counts the inserts, `last` is the number of the last turnover, `prev` of the one before. */
  datatype Timed<T> = Timed(s: State<T, int>, now: nat, last: nat, prev: nat)

  /** An element is recent when it was touched at or after the last turnover. */
  function Recents(stamps: seq<int>, last: nat): (r: seq<bool>)
    ensures |r| == |stamps|
  {
    seq(|stamps|, i requires 0 <= i < |stamps| => stamps[i] >= last)
  }

  function Flags<T>(s: State<T, int>, last: nat): State<T, bool> {
    State(s.table, s.dead, Recents(s.recent, last), s.counter)
  }

  function Plain<T>(t: Timed<T>): State<T, bool> { Flags(t.s, t.last) }

  function EpochTimed<T>(c: Config<T>, t: Timed<T>): (r: Timed<T>)
    requires Shape(c, t.s)
    ensures Shape(c, r.s)
  {
    if t.s.counter != 0 then t.(now := t.now + 1, s := t.s.(counter := t.s.counter - 1))
    else
      var recent := Recents(t.s.recent, t.last);
      var n := RecentCount(t.s.dead, recent, c.size);
      if n >= c.epochSize
      then Timed(t.s.(dead := TurnOver(t.s.dead, recent), counter := c.epochSize), t.now + 1, t.now + 1, t.last)
      else t.(now := t.now + 1, s := t.s.(counter := Max(1, Max(c.epochSize / 16, c.epochSize - n))))
  }

  function InsertTimed<T(==)>(c: Config<T>, t: Timed<T>, e: T): (r: Timed<T>)
    requires Shape(c, t.s)
    ensures Shape(c, r.s)
  {
    var t1 := EpochTimed(c, t);
    t1.(s := Store(c, t1.s, e, t1.now).s)
  }

  function SetupTimed<T>(c: Config<T>): (t: Timed<T>)
    ensures c.size >= 2 ==> Shape(c, t.s)
  {
    Timed(State(seq(c.size, _ => c.default_), seq(c.size, _ => true), seq(c.size, _ => -1), c.epochSize), 0, 0, 0)
  }

  /** Stamps are of the past; what is live was touched since the turnover before the last;
      the next turnover is at least an epoch after the last. */
  ghost predicate TimesOk<T>(c: Config<T>, t: Timed<T>) {
    && Shape(c, t.s)
    && t.prev <= t.last <= t.now && t.now - t.last + t.s.counter >= c.epochSize
    && (forall i :: 0 <= i < c.size ==> t.s.recent[i] <= t.now)
    && (forall i :: 0 <= i < c.size && !t.s.dead[i] ==> t.s.recent[i] >= t.prev)
  }

  lemma SetupTimes<T>(c: Config<T>)
    requires c.size >= 2
    ensures TimesOk(c, SetupTimed(c)) && Plain(SetupTimed(c)) == Setup(c)
  {
  }

  /** The epoch check marks an element only at a turnover, at least an epoch after another turnover since
      the element was last touched. */
  lemma AgingIsLate<T>(c: Config<T>, t: Timed<T>, i: nat)
    requires TimesOk(c, t) && i < c.size && !t.s.dead[i] && EpochTimed(c, t).s.dead[i]
    ensures var t1 := EpochTimed(c, t);
            t1.last == t1.now && t.s.recent[i] < t.last && t1.now >= t.last + c.epochSize + 1
  {
  }

  lemma EpochTimes<T>(c: Config<T>, t: Timed<T>)
    requires TimesOk(c, t)
    ensures TimesOk(c, EpochTimed(c, t)) && Plain(EpochTimed(c, t)) == EpochCheck(c, Plain(t))
  {
    var t1 := EpochTimed(c, t);
    assert Recents(t1.s.recent, t1.last) == EpochCheck(c, Plain(t)).recent;
  }

  /** Moving elements about moves their stamps with them. */
  lemma {:induction false} DisplaceTimes<T>(c: Config<T>, t: Timed<T>, e: T, f: int, at: int, depth: nat)
    requires TimesOk(c, t) && t.prev <= f <= t.now
    ensures TimesOk(c, t.(s := Displace(c, t.s, e, f, at, depth).s))
    decreases depth
  {
    hide Loc, PlaceNumber, FreeLoc, Put, TimesOk;
    TimesShape(c, t);
    if depth > 0 {
      var k := FreeLoc(c, t.s.dead, e, 0);
      if k < WAYS {
        PutTimes(c, t, Loc(c, e, k), e, f);
      } else {
        var loc := NextPlace(c, e, at);
        PutTimes(c, t, loc, e, f);
        StampInRange(c, t, loc);
        DisplaceTimes(c, t.(s := Put(t.s, loc, e, f)), t.s.table[loc], t.s.recent[loc], loc, depth - 1);
      }
    }
  }

  lemma TimesShape<T>(c: Config<T>, t: Timed<T>)
    requires TimesOk(c, t)
    ensures Shape(c, t.s)
  {
  }

  lemma StampInRange<T>(c: Config<T>, t: Timed<T>, loc: nat)
    requires TimesOk(c, t) && loc < c.size && !t.s.dead[loc]
    ensures t.prev <= t.s.recent[loc] <= t.now
  {
  }

  lemma PutTimes<T>(c: Config<T>, t: Timed<T>, loc: nat, e: T, f: int)
    requires TimesOk(c, t) && loc < c.size && t.prev <= f <= t.now
    ensures TimesOk(c, t.(s := Put(t.s, loc, e, f)))
  {
  }

  lemma PutFlags<T>(s: State<T, int>, loc: nat, e: T, f: int, last: nat)
    requires loc < |s.table| == |s.dead| == |s.recent|
    ensures Flags(Put(s, loc, e, f), last) == Put(Flags(s, last), loc, e, f >= last)
    ensures Flags(s, last).recent[loc] == (s.recent[loc] >= last)
  {
    assert Recents(s.recent[loc := f], last) == Recents(s.recent, last)[loc := f >= last];
  }

  lemma {:induction false} DisplaceFlags<T>(c: Config<T>, s: State<T, int>, e: T, f: int, at: int, depth: nat, last: nat)
    requires Shape(c, s)
    ensures var r := Displace(c, s, e, f, at, depth);
            Displace(c, Flags(s, last), e, f >= last, at, depth) == Outcome(Flags(r.s, last), r.dropped, r.ranOut)
    decreases depth
  {
    hide Loc, PlaceNumber, FreeLoc, Put, Recents;
    if depth > 0 {
      var k := FreeLoc(c, s.dead, e, 0);
      if k < WAYS {
        PutFlags(s, Loc(c, e, k), e, f, last);
      } else {
        var loc := NextPlace(c, e, at);
        PutFlags(s, loc, e, f, last);
        DisplaceFlags(c, Put(s, loc, e, f), s.table[loc], s.recent[loc], loc, depth - 1, last);
      }
    }
  }

  /** The timed cache keeps its invariant and is the cache itself with more precise flags. */
  lemma InsertTimes<T(!new)>(c: Config<T>, t: Timed<T>, e: T)
    requires TimesOk(c, t)
    ensures TimesOk(c, InsertTimed(c, t, e)) && Plain(InsertTimed(c, t, e)) == Insert(c, Plain(t), e).s
  {
    hide EpochTimed, EpochCheck, Displace, Put, Recents;
    EpochTimes(c, t);
    var t1 := EpochTimed(c, t);
    var k := FindLoc(c, t1.s.table, e, 0);
    if k < WAYS {
      PutTimes(c, t1, Loc(c, e, k), e, t1.now);
      PutFlags(t1.s, Loc(c, e, k), e, t1.now, t1.last);
    } else {
      DisplaceTimes(c, t1, e, t1.now, -1, c.depthLimit);
      DisplaceFlags(c, t1.s, e, t1.now, -1, c.depthLimit, t1.last);
    }
  }

  lemma LookTimes<T(!new)>(c: Config<T>, t: Timed<T>, e: T, erase: bool)
    requires TimesOk(c, t)
    ensures var t' := t.(s := Look(c, t.s, e, erase));
            TimesOk(c, t') && Plain(t') == Look(c, Plain(t), e, erase)
  {
  }

  lemma LookOrderly<T(!new), F>(c: Config<T>, s: State<T, F>, e: T, erase: bool)
    requires Orderly(c, s)
    ensures Orderly(c, Look(c, s, e, erase))
  {
  }

  lemma EpochOrderly<T>(c: Config<T>, s: State<T, bool>)
    requires Orderly(c, s)
    ensures Orderly(c, EpochCheck(c, s))
  {
  }

  // ------------------------------------------------------------------
  // Runs
  // ------------------------------------------------------------------

  datatype Op<T> = DoInsert(e: T) | DoContains(e: T, erase: bool)

  function Step<T(==)>(c: Config<T>, s: State<T, bool>, op: Op<T>): (r: State<T, bool>)
    requires Shape(c, s)
    ensures Shape(c, r)
  {
    match op
    case DoInsert(e) => Insert(c, s, e).s
    case DoContains(e, erase) => Look(c, s, e, erase)
  }

  function StepTimed<T(==)>(c: Config<T>, t: Timed<T>, op: Op<T>): (r: Timed<T>)
    requires Shape(c, t.s)
    ensures Shape(c, r.s)
  {
    match op
    case DoInsert(e) => InsertTimed(c, t, e)
    case DoContains(e, erase) => t.(s := Look(c, t.s, e, erase))
  }

  function Run<T(==)>(c: Config<T>, ops: seq<Op<T>>): (s: State<T, bool>)
    requires c.size >= 2
    ensures Shape(c, s)
  {
    if ops == [] then Setup(c) else Step(c, Run(c, ops[..|ops| - 1]), ops[|ops| - 1])
  }

  function RunTimed<T(==)>(c: Config<T>, ops: seq<Op<T>>): (t: Timed<T>)
    requires c.size >= 2
    ensures Shape(c, t.s)
  {
    if ops == [] then SetupTimed(c) else StepTimed(c, RunTimed(c, ops[..|ops| - 1]), ops[|ops| - 1])
  }

  /** In every run elements stay in places of their own, once each, and age as the timed cache says. */
  lemma {:induction false} RunKeeps<T(!new)>(c: Config<T>, ops: seq<Op<T>>)
    requires c.size >= 2
    ensures Orderly(c, Run(c, ops)) && TimesOk(c, RunTimed(c, ops)) && Plain(RunTimed(c, ops)) == Run(c, ops)
  {
    hide Orderly, TimesOk, Plain, Insert, InsertTimed, Look, Setup, SetupTimed;
    if ops == [] {
      SetupOrderly(c);
      SetupTimes(c);
    } else {
      var before := ops[..|ops| - 1];
      RunKeeps(c, before);
      match ops[|ops| - 1]
      case DoInsert(e) =>
        InsertTimes(c, RunTimed(c, before), e);
        InsertOrderly(c, Run(c, before), e);
      case DoContains(e, erase) =>
        LookTimes(c, RunTimed(c, before), e, erase);
        LookOrderly(c, Run(c, before), e, erase);
    }
  }

  lemma InsertOrderly<T(!new)>(c: Config<T>, s: State<T, bool>, e: T)
    requires Orderly(c, s)
    ensures Orderly(c, Insert(c, s, e).s)
  {
    EpochOrderly(c, s);
    StoreOrderly(c, EpochCheck(c, s), e, true);
  }
}
