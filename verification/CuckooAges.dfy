/**
 Ages over whole runs of the cuckoo cache.  The stamps of the timed cache are
 the numbers of real inserts, so an element that was inserted stays live for
 a whole epoch, unless it is erased or an insert runs out of depth with it in
 hand.
 */
module CuckooAges {
  import opened Cuckoo

  /** The number of inserts in a run, and the number of the last one of `x`. */
  function Inserts<T>(ops: seq<Op<T>>): nat {
    if ops == [] then 0 else Inserts(ops[..|ops| - 1]) + if ops[|ops| - 1].DoInsert? then 1 else 0
  }

  function LastInsert<T(==)>(ops: seq<Op<T>>, x: T): (n: int)
    ensures -1 <= n <= Inserts(ops)
  {
    if ops == [] then -1
    else if ops[|ops| - 1] == DoInsert(x) then Inserts(ops)
    else LastInsert(ops[..|ops| - 1], x)
  }

  /** Every element has the stamp that `g` gives it. */
  ghost predicate Stamped<T(!new)>(c: Config<T>, s: State<T, int>, g: T -> int) {
    Shape(c, s) && forall i :: 0 <= i < c.size && s.table[i] != c.default_ ==> s.recent[i] == g(s.table[i])
  }

  lemma PutStamped<T(!new)>(c: Config<T>, s: State<T, int>, loc: nat, e: T, f: int, g: T -> int)
    requires Stamped(c, s, g) && loc < c.size && (e != c.default_ ==> f == g(e))
    ensures Stamped(c, Put(s, loc, e, f), g)
    ensures s.table[loc] != c.default_ ==> s.recent[loc] == g(s.table[loc])
  {
  }

  lemma {:induction false} DisplaceStamped<T(!new)>(c: Config<T>, s: State<T, int>, e: T, f: int, last: int, depth: nat, g: T -> int)
    requires Shape(c, s) && Stamped(c, s, g) && (e != c.default_ ==> f == g(e))
    ensures Stamped(c, Displace(c, s, e, f, last, depth).s, g)
    decreases depth
  {
    hide Loc, NextPlace, FreeLoc, Put, Stamped;
    if depth > 0 {
      var k := FreeLoc(c, s.dead, e, 0);
      if k < WAYS {
        PutStamped(c, s, Loc(c, e, k), e, f, g);
      } else {
        var loc := NextPlace(c, e, last);
        PutStamped(c, s, loc, e, f, g);
        DisplaceStamped(c, Put(s, loc, e, f), s.table[loc], s.recent[loc], loc, depth - 1, g);
      }
    }
  }

  /** A stamp changes only with its element: `g'` gives `e` the new stamp. */
  lemma StoreStamped<T(!new)>(c: Config<T>, s: State<T, int>, e: T, f: int, g: T -> int, g': T -> int)
    requires Orderly(c, s) && Stamped(c, s, g) && g'(e) == f && forall x :: x != e ==> g'(x) == g(x)
    ensures Stamped(c, Store(c, s, e, f).s, g')
  {
    hide Displace, Loc;
    var k := FindLoc(c, s.table, e, 0);
    if k < WAYS {
      FoundStamped(c, s, Loc(c, e, k), e, f, g, g');
    } else {
      ContainsExactly(c, s, e);
      assert Stamped(c, s, g');
      DisplaceStamped(c, s, e, f, -1, c.depthLimit, g');
    }
  }

  lemma FoundStamped<T(!new)>(c: Config<T>, s: State<T, int>, loc: nat, e: T, f: int, g: T -> int, g': T -> int)
    requires Orderly(c, s) && Stamped(c, s, g) && g'(e) == f && (forall x :: x != e ==> g'(x) == g(x))
    requires loc < c.size && s.table[loc] == e
    ensures Stamped(c, Put(s, loc, e, f), g')
  {
    var s' := Put(s, loc, e, f);
    forall i | 0 <= i < c.size && s'.table[i] != c.default_ ensures s'.recent[i] == g'(s'.table[i]) {
      if i < loc {
        assert s.table[i] != s.table[loc];
      } else if loc < i {
        assert s.table[loc] != s.table[i];
      }
    }
  }

  ghost function LastOf<T(!new)>(ops: seq<Op<T>>): T -> int { x => LastInsert(ops, x) }

  /** In every run the stamps are the numbers of the last inserts. */
  lemma {:induction false} RunStamped<T(!new)>(c: Config<T>, ops: seq<Op<T>>)
    requires c.size >= 2
    ensures var t := RunTimed(c, ops); t.now == Inserts(ops) && Stamped(c, t.s, LastOf(ops))
  {
    hide Stamped, Store, Look, EpochTimed, Setup, Orderly, TimesOk;
    if ops == [] {
      SetupStamped(c);
    } else {
      var before, op := ops[..|ops| - 1], ops[|ops| - 1];
      RunStamped(c, before);
      RunKeeps(c, before);
      var t := RunTimed(c, before);
      match op
      case DoInsert(e) =>
        EpochStamped(c, t, LastOf(before));
        TimedOrderly(c, t);
        assert forall x :: x != e ==> LastOf(ops)(x) == LastOf(before)(x);
        StoreStamped(c, EpochTimed(c, t).s, e, t.now + 1, LastOf(before), LastOf(ops));
      case DoContains(e, erase) =>
        LookStamped(c, t.s, e, erase, LastOf(before), LastOf(ops));
    }
  }

  lemma SetupStamped<T(!new)>(c: Config<T>)
    requires c.size >= 2
    ensures SetupTimed(c).now == 0 && Stamped(c, SetupTimed(c).s, LastOf([]))
  {
  }

  lemma EpochStamped<T(!new)>(c: Config<T>, t: Timed<T>, g: T -> int)
    requires Stamped(c, t.s, g)
    ensures EpochTimed(c, t).now == t.now + 1 && Stamped(c, EpochTimed(c, t).s, g)
  {
  }

  lemma LookStamped<T(!new)>(c: Config<T>, s: State<T, int>, e: T, erase: bool, g: T -> int, g': T -> int)
    requires Stamped(c, s, g) && forall x :: g'(x) == g(x)
    ensures Stamped(c, Look(c, s, e, erase), g')
  {
  }

  /** Order depends on the table and the flags of free places only, and an epoch check only frees places. */
  lemma TimedOrderly<T(!new)>(c: Config<T>, t: Timed<T>)
    requires Shape(c, t.s) && Orderly(c, Plain(t))
    ensures Orderly(c, EpochTimed(c, t).s)
  {
    var s' := EpochTimed(c, t).s;
    assert s'.table == Plain(t).table && forall i :: 0 <= i < c.size && !s'.dead[i] ==> !Plain(t).dead[i];
  }

  // ------------------------------------------------------------------
  // An element stays for an epoch
  // ------------------------------------------------------------------

  /** The epoch check of an insert marks no element whose last insert is at most an epoch back. */
  lemma NotAgedSoon<T(!new)>(c: Config<T>, ops: seq<Op<T>>, i: nat)
    requires c.size >= 2 && i < c.size
    requires var s := Run(c, ops); !s.dead[i] && s.table[i] != c.default_ && Inserts(ops) <= LastInsert(ops, s.table[i]) + c.epochSize
    ensures !EpochCheck(c, Run(c, ops)).dead[i]
  {
    hide EpochTimed, EpochCheck, Orderly;
    RunKeeps(c, ops);
    RunStamped(c, ops);
    var t := RunTimed(c, ops);
    assert t.s.recent[i] == LastOf(ops)(t.s.table[i]);
    EpochTimes(c, t);
    if EpochTimed(c, t).s.dead[i] {
      AgingIsLate(c, t, i);
      EpochStamped(c, t, LastOf(ops));
    }
  }

  /** The insert that is operation `k` of the run runs out of depth with `x` in hand. */
  ghost predicate Dropped<T>(c: Config<T>, ops: seq<Op<T>>, x: T, k: nat)
    requires c.size >= 2 && k < |ops|
  {
    ops[k].DoInsert? && var r := Insert(c, Run(c, ops[..k]), ops[k].e); r.ranOut && r.dropped == x
  }

  /** One operation within the epoch, not an erasing lookup, leaves a live element live or drops it. */
  lemma StaysOnce<T(!new)>(c: Config<T>, before: seq<Op<T>>, op: Op<T>, x: T)
    requires c.size >= 2 && x != c.default_ && Live(Run(c, before), x) && op != DoContains(x, true)
    requires op.DoInsert? ==> Inserts(before) <= LastInsert(before, x) + c.epochSize
    ensures Live(Step(c, Run(c, before), op), x)
         || (op.DoInsert? && var r := Insert(c, Run(c, before), op.e); r.ranOut && r.dropped == x)
  {
    hide EpochCheck, Store, Run, Inserts, LastInsert;
    var s := Run(c, before);
    var i :| 0 <= i < c.size && s.table[i] == x && !s.dead[i];
    match op
    case DoInsert(e) =>
      NotAgedSoon(c, before, i);
      assert EpochCheck(c, s).table[i] == x;
      StoreLive(c, EpochCheck(c, s), e, true, x);
    case DoContains(e, erase) =>
      var s' := Look(c, s, e, erase);
      assert s'.table[i] == x && !s'.dead[i];
  }

  lemma {:induction false} LaterInsert<T(!new)>(before: seq<Op<T>>, after: seq<Op<T>>, x: T)
    ensures LastInsert(before, x) <= LastInsert(before + after, x) && Inserts(before) <= Inserts(before + after)
  {
    if after == [] {
      assert before + after == before;
    } else {
      var most := after[..|after| - 1];
      assert (before + after)[..|before + after| - 1] == before + most;
      LaterInsert(before, most, x);
    }
  }

  /** An element that is live stays live through the rest of the epoch after its insert, whatever else is
      inserted or looked up, unless an erasing lookup asks for it or an insert runs out of depth with it in hand. */
  lemma {:induction false} StaysForAnEpoch<T(!new)>(c: Config<T>, before: seq<Op<T>>, after: seq<Op<T>>, x: T)
    requires c.size >= 2 && x != c.default_ && Live(Run(c, before), x) && DoContains(x, true) !in after
    requires Inserts(before + after) <= LastInsert(before, x) + c.epochSize + 1
    ensures Live(Run(c, before + after), x)
         || exists k :: |before| <= k < |before + after| && Dropped(c, before + after, x, k)
  {
    hide Live, Step, Insert;
    var ops := before + after;
    if after == [] {
      assert ops == before;
    } else {
      var most, op := after[..|after| - 1], after[|after| - 1];
      var ops' := before + most;
      assert ops[..|ops| - 1] == ops' && ops[|ops| - 1] == op;
      LaterInsert(before, most, x);
      StaysForAnEpoch(c, before, most, x);
      if Live(Run(c, ops'), x) {
        StaysOnce(c, ops', op, x);
        if !Live(Run(c, ops), x) {
          assert ops[..|ops'|] == ops';
          assert Dropped(c, ops, x, |ops'|);
        }
      } else {
        var k :| |before| <= k < |ops'| && Dropped(c, ops', x, k);
        assert ops[..k] == ops'[..k] && ops[k] == ops'[k];
        assert Dropped(c, ops, x, k);
      }
    }
  }
}
