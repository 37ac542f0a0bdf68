/**
 The cache of unspent transaction outputs: write-back caches stacked on one
 another and, at the bottom, on the coin database.  An entry is DIRTY when it
 may differ from the view below, and FRESH when the view below is known to have
 no unspent coin there, so that spending it may simply drop it.

 The first half treats one layer as a value (`CoinsMap`) over the view below it;
 the second half is the objects, each method of which is tied to the maps of
 unspent coins that the whole stack shows (`Views`).
 */
module Coins {
  import opened Basics

  type Script = seq<Byte>

  datatype OutPoint = OutPoint(hash: nat, n: nat)

  datatype TxOut = TxOut(nValue: int, scriptPubKey: Script)

  datatype Coin = Coin(out: TxOut, fCoinBase: bool, fCoinStake: bool, nHeight: nat) {
    predicate IsSpent() { out.nValue == -1 }
  }

  const EMPTY_COIN := Coin(TxOut(-1, []), false, false, 0)
  const OP_RETURN: Byte := 0x6a
  const MAX_SCRIPT_SIZE := 129000

  predicate IsUnspendable(s: Script) {
    (|s| > 0 && s[0] == OP_RETURN) || |s| > MAX_SCRIPT_SIZE
  }

  datatype Entry = Entry(coin: Coin, isDirty: bool, isFresh: bool)

  type CoinsMap = map<OutPoint, Entry>

  /** A set of unspent coins. */
  type View = map<OutPoint, Coin>

  function Lookup<V>(m: map<OutPoint, V>, o: OutPoint): Option<V> { if o in m then Some(m[o]) else None }

  ghost predicate AllUnspent(v: View) { forall o :: o in v ==> !v[o].IsSpent() }

  // ------------------------------------------------------------------
  // One layer over the view below
  // ------------------------------------------------------------------

  /** What a reader sees at `o` through `cache`. */
  function SeenAt(cache: CoinsMap, under: View, o: OutPoint): Option<Coin> {
    if o in cache then
      if cache[o].coin.IsSpent() then None else Some(cache[o].coin)
    else
      Lookup(under, o)
  }

  function Overlay(cache: CoinsMap, under: View): View {
    map o | o in cache.Keys + under.Keys && SeenAt(cache, under, o).Some? :: SeenAt(cache, under, o).value
  }

  lemma OverlayAt(cache: CoinsMap, under: View, o: OutPoint)
    ensures Lookup(Overlay(cache, under), o) == SeenAt(cache, under, o)
  {
  }

  lemma EmptyLayer(under: View)
    ensures Overlay(map[], under) == under && LayerOk(map[], under)
  {
    hide Overlay;
    forall o ensures Lookup(Overlay(map[], under), o) == Lookup(under, o) {
      OverlayAt(map[], under, o);
    }
    SameMap(Overlay(map[], under), under);
  }

  /** FRESH entries are unspent and unknown below; entries that are not DIRTY say what the view below says. */
  ghost predicate EntryOk(e: Entry, below: Option<Coin>) {
    && (e.isFresh ==> !e.coin.IsSpent() && below == None)
    && (!e.isDirty ==> !e.isFresh && below == Some(e.coin))
  }

  ghost predicate LayerOk(cache: CoinsMap, under: View) {
    forall o :: o in cache ==> EntryOk(cache[o], Lookup(under, o))
  }

  function Put(cache: CoinsMap, o: OutPoint, e: Option<Entry>): CoinsMap {
    if e.Some? then cache[o := e.value] else cache - {o}
  }

  /** Replacing the entry at `o` by one that fits keeps the layer good and changes the view at `o` only. */
  lemma PutKeeps(cache: CoinsMap, under: View, o: OutPoint, e: Option<Entry>)
    requires LayerOk(cache, under)
    requires e.Some? ==> EntryOk(e.value, Lookup(under, o))
    ensures LayerOk(Put(cache, o, e), under)
    ensures forall o' :: o' != o ==> SeenAt(Put(cache, o, e), under, o') == SeenAt(cache, under, o')
  {
  }

  lemma SameView(a: CoinsMap, b: CoinsMap, under: View)
    requires forall o :: SeenAt(a, under, o) == SeenAt(b, under, o)
    ensures Overlay(a, under) == Overlay(b, under)
  {
    var u, v := Overlay(a, under), Overlay(b, under);
    forall o ensures Lookup(u, o) == Lookup(v, o) {
      OverlayAt(a, under, o);
      OverlayAt(b, under, o);
    }
    SameMap(u, v);
  }

  lemma SameMap<V>(u: map<OutPoint, V>, v: map<OutPoint, V>)
    requires forall o :: Lookup(u, o) == Lookup(v, o)
    ensures u == v
  {
    forall o ensures o in u <==> o in v {
      assert Lookup(u, o) == Lookup(v, o);
    }
    forall o | o in u ensures u[o] == v[o] {
      assert Lookup(u, o) == Lookup(v, o);
    }
  }

  /** The entry that AddCoin leaves, or None where it throws. */
  function AddedEntry(before: Option<Entry>, coin: Coin, overwrite: bool): Option<Entry> {
    var e := if before.Some? then before.value else Entry(EMPTY_COIN, false, false);
    if !overwrite && !e.coin.IsSpent() then None
    else Some(Entry(coin, true, e.isFresh || (!overwrite && !e.isDirty)))
  }

  /** Adding without the overwrite flag is safe exactly when the outpoint is cached or unknown below:
      it is the caller who has to know that the coin is new. */
  lemma AddSafeExactly(cache: CoinsMap, under: View, o: OutPoint, coin: Coin, overwrite: bool)
    requires LayerOk(cache, under) && AllUnspent(under) && !coin.IsSpent()
    requires AddedEntry(Lookup(cache, o), coin, overwrite).Some?
    ensures LayerOk(Put(cache, o, AddedEntry(Lookup(cache, o), coin, overwrite)), under)
       <==> (overwrite || o in cache || o !in under)
  {
    var cache' := Put(cache, o, AddedEntry(Lookup(cache, o), coin, overwrite));
    if overwrite || o in cache || o !in under {
      PutKeeps(cache, under, o, AddedEntry(Lookup(cache, o), coin, overwrite));
    } else {
      assert !EntryOk(cache'[o], Lookup(under, o));
    }
  }

  lemma AddView(cache: CoinsMap, under: View, o: OutPoint, e: Entry)
    requires !e.coin.IsSpent()
    ensures Overlay(Put(cache, o, Some(e)), under) == Overlay(cache, under)[o := e.coin]
  {
    var u, v := Overlay(Put(cache, o, Some(e)), under), Overlay(cache, under)[o := e.coin];
    forall o' ensures Lookup(u, o') == Lookup(v, o') {
      OverlayAt(Put(cache, o, Some(e)), under, o');
      OverlayAt(cache, under, o');
    }
    SameMap(u, v);
  }

  /** The entry that SpendCoin leaves in place of `e`. */
  function SpentEntry(e: Entry): Option<Entry> {
    if e.isFresh then None else Some(Entry(EMPTY_COIN, true, false))
  }

  /** Dropping a FRESH entry never lets a coin of the view below shine through. */
  lemma SpendView(cache: CoinsMap, under: View, o: OutPoint)
    requires LayerOk(cache, under) && o in cache
    ensures LayerOk(Put(cache, o, SpentEntry(cache[o])), under)
    ensures Overlay(Put(cache, o, SpentEntry(cache[o])), under) == Overlay(cache, under) - {o}
  {
    var cache' := Put(cache, o, SpentEntry(cache[o]));
    var u, v := Overlay(cache', under), Overlay(cache, under) - {o};
    forall o' ensures Lookup(u, o') == Lookup(v, o') {
      OverlayAt(cache', under, o');
      OverlayAt(cache, under, o');
    }
    SameMap(u, v);
  }

  // ------------------------------------------------------------------
  // Writing one layer into the one below
  // ------------------------------------------------------------------

  /** The parent entry after the child's entry `c` has been written to it (the throwing case aside). */
  function MergedEntry(p: Option<Entry>, c: Entry): Option<Entry> {
    if !c.isDirty then p
    else if p == None then
      if c.isFresh && c.coin.IsSpent() then None else Some(Entry(c.coin, true, c.isFresh))
    else if p.value.isFresh && c.coin.IsSpent() then None
    else Some(Entry(c.coin, true, p.value.isFresh))
  }

  function MergedAt(parent: CoinsMap, child: CoinsMap, o: OutPoint): Option<Entry> {
    if o in child then MergedEntry(Lookup(parent, o), child[o]) else Lookup(parent, o)
  }

  /** `merged` is `parent` after every entry of `child` has been written to it. */
  ghost predicate IsMerge(parent: CoinsMap, child: CoinsMap, merged: CoinsMap) {
    forall o :: Lookup(merged, o) == MergedAt(parent, child, o)
  }

  lemma MergeAt(parent: CoinsMap, child: CoinsMap, merged: CoinsMap, o: OutPoint)
    requires IsMerge(parent, child, merged)
    ensures Lookup(merged, o) == MergedAt(parent, child, o)
  {
  }

  /** The heart of the flush: with both layers good, the merged layer is good and shows exactly what the
      child showed over the parent. */
  lemma MergeShowsChild(parent: CoinsMap, child: CoinsMap, merged: CoinsMap, under: View)
    requires AllUnspent(under) && LayerOk(parent, under) && LayerOk(child, Overlay(parent, under))
    requires IsMerge(parent, child, merged)
    ensures LayerOk(merged, under)
    ensures Overlay(merged, under) == Overlay(child, Overlay(parent, under))
  {
    hide Overlay, IsMerge;
    var view := Overlay(parent, under);
    forall o
      ensures o in merged ==> EntryOk(merged[o], Lookup(under, o))
      ensures SeenAt(merged, under, o) == SeenAt(child, view, o)
    {
      OverlayAt(parent, under, o);
      MergeAt(parent, child, merged, o);
    }
    var u, v := Overlay(merged, under), Overlay(child, view);
    forall o ensures Lookup(u, o) == Lookup(v, o) {
      OverlayAt(merged, under, o);
      OverlayAt(child, view, o);
    }
    SameMap(u, v);
  }

  /** The condition of the `logic_error` in BatchWrite never holds between two good layers. */
  lemma FreshNeverMisapplied(parent: CoinsMap, child: CoinsMap, under: View, o: OutPoint)
    requires LayerOk(child, Overlay(parent, under)) && o in parent && o in child
    ensures !(child[o].isFresh && !parent[o].coin.IsSpent())
  {
    OverlayAt(parent, under, o);
  }

  /** The same write into the database: dirty entries only, spent ones erased. */
  function WrittenAt(coins: View, child: CoinsMap, o: OutPoint): Option<Coin> {
    if o in child && child[o].isDirty then
      if child[o].coin.IsSpent() then None else Some(child[o].coin)
    else
      Lookup(coins, o)
  }

  lemma WriteShowsChild(coins: View, child: CoinsMap, written: View)
    requires AllUnspent(coins) && LayerOk(child, coins)
    requires forall o :: Lookup(written, o) == WrittenAt(coins, child, o)
    ensures written == Overlay(child, coins) && AllUnspent(written)
  {
    var v := Overlay(child, coins);
    forall o ensures Lookup(written, o) == Lookup(v, o) {
      OverlayAt(child, coins, o);
      assert Lookup(written, o) == WrittenAt(coins, child, o);
      assert o in child ==> EntryOk(child[o], Lookup(coins, o));
    }
    SameMap(written, v);
    OverlayUnspent(child, coins);
  }

  lemma OverlayUnspent(cache: CoinsMap, under: View)
    requires AllUnspent(under)
    ensures AllUnspent(Overlay(cache, under))
  {
    forall o | o in Overlay(cache, under) ensures !Overlay(cache, under)[o].IsSpent() {
      OverlayAt(cache, under, o);
    }
  }

  // ------------------------------------------------------------------
  // The objects
  // ------------------------------------------------------------------

  /** The bottom of a stack: a store that keeps unspent coins only. */
  class CoinsDB {
    var coins: View

    constructor (initial: View)
      ensures coins == initial
    {
      coins := initial;
    }

    method GetCoin(o: OutPoint) returns (found: bool, coin: Coin)
      ensures found <==> o in coins
      ensures found ==> coin == coins[o]
    {
      found := o in coins;
      coin := if o in coins then coins[o] else EMPTY_COIN;
    }

    method BatchWrite(mapCoins: CoinsMap)
      requires AllUnspent(coins) && LayerOk(mapCoins, coins)
      modifies this
      ensures coins == Overlay(mapCoins, old(coins)) && AllUnspent(coins)
    {
      var todo := mapCoins.Keys;
      while todo != {}
        invariant todo <= mapCoins.Keys
        invariant forall o ::
          Lookup(coins, o) == (if o in todo then Lookup(old(coins), o) else WrittenAt(old(coins), mapCoins, o))
      {
        var o :| o in todo;
        var e := mapCoins[o];
        if e.isDirty {
          if e.coin.IsSpent() {
            coins := coins - {o};
          } else {
            coins := coins[o := e.coin];
          }
        }
        todo := todo - {o};
      }
      WriteShowsChild(old(coins), mapCoins, coins);
    }
  }

  datatype Base = OnCache(cache: CoinsViewCache) | OnDb(db: CoinsDB)

  class CoinsViewCache {
    var cacheCoins: CoinsMap
    const base: Base
    ghost const Repr: set<object>

    /** The objects of the stack below are this one's alone. */
    ghost predicate Shape()
      decreases Repr
    {
      && this in Repr
      && match base
         case OnDb(db) => Repr == {this, db}
         case OnCache(c) => c.Repr == Repr - {this} && c.Repr < Repr && c.Shape()
    }

    /** The unspent coins of the layer below. */
    ghost function BaseView(): View
      requires Shape()
      reads Repr - {this}
      decreases Repr, 0
    {
      match base
      case OnDb(db) => db.coins
      case OnCache(c) => c.CoinView()
    }

    /** The unspent coins that this layer shows. */
    ghost function CoinView(): View
      requires Shape()
      reads Repr
      decreases Repr, 1
    {
      Overlay(cacheCoins, BaseView())
    }

    /** What every layer shows, from this one down to the database. */
    ghost function Views(): (vs: seq<View>)
      requires Shape()
      reads Repr
      ensures |vs| >= 2 && vs[0] == CoinView() && vs[1..] == LowerViews()
      decreases Repr, 2
    {
      [CoinView()] + LowerViews()
    }

    ghost function LowerViews(): (vs: seq<View>)
      requires Shape()
      reads Repr - {this}
      ensures |vs| >= 1 && vs[0] == BaseView()
      decreases Repr, 1
    {
      match base
      case OnDb(db) => [db.coins]
      case OnCache(c) => c.Views()
    }

    /** Every layer of the stack is good. */
    ghost predicate Valid()
      reads Repr
      decreases Repr
    {
      && Shape()
      && LayerOk(cacheCoins, BaseView())
      && AllUnspent(BaseView())
      && (base.OnCache? ==> base.cache.Valid())
    }

    constructor (baseIn: Base)
      requires baseIn.OnCache? ==> baseIn.cache.Valid()
      requires baseIn.OnDb? ==> AllUnspent(baseIn.db.coins)
      ensures Valid() && base == baseIn && fresh(this)
      ensures Repr == {this} + (if baseIn.OnCache? then baseIn.cache.Repr else {baseIn.db})
      ensures Views() == [LowerViews()[0]] + LowerViews()
    {
      cacheCoins := map[];
      base := baseIn;
      Repr := {this} + (if baseIn.OnCache? then baseIn.cache.Repr else {baseIn.db as object});
      new;
      assert Overlay(map[], BaseView()) == BaseView();
    }

    /** The lookup in the layer below, whatever kind of layer it is. */
    method BackedGetCoin(o: OutPoint) returns (found: bool, coin: Coin)
      requires Valid()
      modifies Repr - {this}
      ensures Valid() && LowerViews() == old(LowerViews())
      ensures found <==> o in BaseView()
      ensures found ==> coin == BaseView()[o]
      decreases Repr, 0
    {
      match base {
        case OnDb(db) => found, coin := db.GetCoin(o);
        case OnCache(c) => found, coin := c.GetCoin(o);
      }
    }

    method FetchCoin(o: OutPoint) returns (found: bool)
      requires Valid()
      modifies Repr
      ensures Valid() && Views() == old(Views())
      ensures found == (o in cacheCoins)
      ensures found <==> o in old(cacheCoins) || o in BaseView()
      ensures cacheCoins == if found && o !in old(cacheCoins) then old(cacheCoins)[o := Entry(BaseView()[o], false, false)]
                            else old(cacheCoins)
      decreases Repr, 1
    {
      if o in cacheCoins {
        return true;
      }
      var tmp;
      found, tmp := BackedGetCoin(o);
      if !found {
        return;
      }
      ghost var before := cacheCoins;
      cacheCoins := cacheCoins[o := Entry(tmp, false, tmp.IsSpent())];
      SameView(before, cacheCoins, BaseView());
    }

    /** True exactly for the unspent coins of the view. */
    method GetCoin(o: OutPoint) returns (found: bool, coin: Coin)
      requires Valid()
      modifies Repr
      ensures Valid() && Views() == old(Views())
      ensures found <==> o in CoinView()
      ensures found ==> coin == CoinView()[o]
      decreases Repr, 2
    {
      var cached := FetchCoin(o);
      OverlayAt(cacheCoins, BaseView(), o);
      coin := EMPTY_COIN;
      found := false;
      if cached {
        coin := cacheCoins[o].coin;
        found := !coin.IsSpent();
      }
    }

    method HaveCoin(o: OutPoint) returns (have: bool)
      requires Valid()
      modifies Repr
      ensures Valid() && Views() == old(Views())
      ensures have <==> o in CoinView()
    {
      var cached := FetchCoin(o);
      OverlayAt(cacheCoins, BaseView(), o);
      have := cached && !cacheCoins[o].coin.IsSpent();
    }

    /** Throws exactly when an unspent cached coin would be replaced without leave to overwrite.  The flags are
        right exactly when the caller knew that a coin added without that leave is new. */
    method AddCoin(o: OutPoint, coin: Coin, overwrite: bool) returns (threw: bool)
      requires Valid() && !coin.IsSpent()
      modifies this
      ensures Shape() && LowerViews() == old(LowerViews())
      ensures Valid() <==>
              IsUnspendable(coin.out.scriptPubKey) || threw || overwrite || o in old(cacheCoins) || o !in old(BaseView())
      ensures threw <==> !IsUnspendable(coin.out.scriptPubKey) && !overwrite && o in old(CoinView()) && o in old(cacheCoins)
      ensures CoinView() == if threw || IsUnspendable(coin.out.scriptPubKey) then old(CoinView()) else old(CoinView())[o := coin]
    {
      OverlayAt(cacheCoins, BaseView(), o);
      threw := false;
      if IsUnspendable(coin.out.scriptPubKey) {
        return;
      }
      ghost var before := cacheCoins;
      var inserted := o !in cacheCoins;
      var e := if inserted then Entry(EMPTY_COIN, false, false) else cacheCoins[o];
      var makeFresh := false;
      if !overwrite {
        if !e.coin.IsSpent() {
          return true;
        }
        makeFresh := !e.isDirty;
      }
      cacheCoins := cacheCoins[o := Entry(coin, true, e.isFresh || makeFresh)];
      assert Some(cacheCoins[o]) == AddedEntry(Lookup(before, o), coin, overwrite);
      AddSafeExactly(before, BaseView(), o, coin, overwrite);
      AddView(before, BaseView(), o, cacheCoins[o]);
    }

    /** Removes the coin from this view and from no other; `spent` says that the outpoint was known. */
    method SpendCoin(o: OutPoint) returns (spent: bool, moveout: Coin)
      requires Valid()
      modifies Repr
      ensures Valid() && LowerViews() == old(LowerViews())
      ensures CoinView() == old(CoinView()) - {o}
      ensures o in old(CoinView()) ==> spent && moveout == old(CoinView()[o])
      ensures spent && o !in old(CoinView()) ==> moveout.IsSpent()
    {
      hide Overlay;
      spent := FetchCoin(o);
      moveout := EMPTY_COIN;
      ghost var before := cacheCoins;
      OverlayAt(before, BaseView(), o);
      if !spent {
        return;
      }
      var e := cacheCoins[o];
      moveout := e.coin;
      if e.isFresh {
        cacheCoins := cacheCoins - {o};
      } else {
        cacheCoins := cacheCoins[o := Entry(EMPTY_COIN, true, false)];
      }
      SpendView(before, BaseView(), o);
    }

    /** Takes the child's entries in any order. */
    method BatchWrite(mapCoins: CoinsMap)
      requires Valid() && LayerOk(mapCoins, CoinView())
      modifies this
      ensures Valid() && LowerViews() == old(LowerViews())
      ensures CoinView() == Overlay(mapCoins, old(CoinView()))
    {
      ghost var parent, under := cacheCoins, BaseView();
      var todo := mapCoins.Keys;
      while todo != {}
        invariant todo <= mapCoins.Keys
        invariant forall o :: Lookup(cacheCoins, o) == (if o in todo then Lookup(parent, o) else MergedAt(parent, mapCoins, o))
      {
        var o :| o in todo;
        var e := mapCoins[o];
        assert Lookup(cacheCoins, o) == Lookup(parent, o);
        if e.isDirty {
          if o !in cacheCoins {
            if !(e.isFresh && e.coin.IsSpent()) {
              cacheCoins := cacheCoins[o := Entry(e.coin, true, e.isFresh)];
            }
          } else {
            var ours := cacheCoins[o];
            if e.isFresh && !ours.coin.IsSpent() {
              // the logic_error for a misapplied FRESH flag
              FreshNeverMisapplied(parent, mapCoins, under, o);
              assert false;
            }
            if ours.isFresh && e.coin.IsSpent() {
              cacheCoins := cacheCoins - {o};
            } else {
              cacheCoins := cacheCoins[o := Entry(e.coin, true, ours.isFresh)];
            }
          }
        }
        todo := todo - {o};
      }
      MergeShowsChild(parent, mapCoins, cacheCoins, under);
    }

    /** The write to the layer below: only that layer's view changes. */
    method BackedBatchWrite(mapCoins: CoinsMap)
      requires Valid() && LayerOk(mapCoins, BaseView())
      modifies Repr - {this}
      ensures base.OnCache? ==> base.cache.Valid()
      ensures AllUnspent(BaseView())
      ensures LowerViews() == old(LowerViews())[0 := Overlay(mapCoins, old(BaseView()))]
    {
      match base {
        case OnDb(db) => db.BatchWrite(mapCoins);
        case OnCache(c) =>
          c.BatchWrite(mapCoins);
          OverlayUnspent(c.cacheCoins, c.BaseView());
      }
    }

    /** Makes the view below exactly this view, and leaves this view as it was. */
    method Flush()
      requires Valid()
      modifies Repr
      ensures Valid() && cacheCoins == map[]
      ensures Views() == old(Views())[1 := old(CoinView())]
    {
      hide Overlay, LayerOk;
      BackedBatchWrite(cacheCoins);
      cacheCoins := map[];
      EmptyLayer(BaseView());
    }

    /** Drops an unmodified entry; no view changes. */
    method Uncache(o: OutPoint)
      requires Valid()
      modifies this
      ensures Valid() && Views() == old(Views())
      ensures cacheCoins == old(cacheCoins) || cacheCoins == old(cacheCoins) - {o}
    {
      ghost var before := cacheCoins;
      if o in cacheCoins && !cacheCoins[o].isDirty && !cacheCoins[o].isFresh {
        cacheCoins := cacheCoins - {o};
        SameView(before, cacheCoins, BaseView());
      }
    }
  }

  // ------------------------------------------------------------------
  // Whole runs against one flat map per layer
  // ------------------------------------------------------------------

  datatype Op =
    | Add(o: OutPoint, coin: Coin, overwrite: bool)
    | Spend(o: OutPoint)
    | Fetch(o: OutPoint)
    | Uncache(o: OutPoint)
    | Flush
    | Stack    // put a new, empty cache on top
    | Discard  // destroy the top cache without flushing it

  /** What a caller must know: a coin added without the overwrite flag is not in the view. */
  predicate Allowed(vs: seq<View>, op: Op)
    requires |vs| >= 2
  {
    match op
    case Add(o, coin, overwrite) => !coin.IsSpent() && (overwrite || o !in vs[0])
    case Discard => |vs| > 2
    case _ => true
  }

  function SpecStep(vs: seq<View>, op: Op): (vs': seq<View>)
    requires |vs| >= 2 && Allowed(vs, op)
    ensures |vs'| >= 2
  {
    match op
    case Add(o, coin, _) => if IsUnspendable(coin.out.scriptPubKey) then vs else vs[0 := vs[0][o := coin]]
    case Spend(o) => vs[0 := vs[0] - {o}]
    case Fetch(_) => vs
    case Uncache(_) => vs
    case Flush => vs[1 := vs[0]]
    case Stack => [vs[0]] + vs
    case Discard => vs[1..]
  }

  ghost predicate AllowedRun(vs: seq<View>, ops: seq<Op>)
    requires |vs| >= 2
    decreases ops
  {
    ops != [] ==> Allowed(vs, ops[0]) && AllowedRun(SpecStep(vs, ops[0]), ops[1..])
  }

  ghost function SpecRun(vs: seq<View>, ops: seq<Op>): (vs': seq<View>)
    requires |vs| >= 2 && AllowedRun(vs, ops)
    ensures |vs'| >= 2
    decreases ops
  {
    if ops == [] then vs else SpecRun(SpecStep(vs, ops[0]), ops[1..])
  }

  /** One operation on the top cache does to the stack's views what the flat maps say. */
  method Apply(top: CoinsViewCache, op: Op) returns (top': CoinsViewCache)
    requires top.Valid() && Allowed(top.Views(), op)
    modifies top.Repr
    ensures top'.Valid() && fresh(top'.Repr - top.Repr)
    ensures top'.Views() == SpecStep(old(top.Views()), op)
  {
    top' := top;
    match op {
      case Add(o, coin, overwrite) =>
        OverlayAt(top.cacheCoins, top.BaseView(), o);
        var threw := top.AddCoin(o, coin, overwrite);
      case Spend(o) =>
        var spent, coin := top.SpendCoin(o);
      case Fetch(o) =>
        var found := top.FetchCoin(o);
      case Uncache(o) =>
        top.Uncache(o);
      case Flush =>
        top.Flush();
      case Stack =>
        top' := new CoinsViewCache(OnCache(top));
      case Discard =>
        top' := top.base.cache;
    }
  }

  /** Every run on the top of a stack refines the flat maps; in every state it reaches the layers are good. */
  method Run(start: CoinsViewCache, ops: seq<Op>) returns (top: CoinsViewCache)
    requires start.Valid() && AllowedRun(start.Views(), ops)
    modifies start.Repr
    ensures top.Valid() && fresh(top.Repr - start.Repr)
    ensures top.Views() == SpecRun(old(start.Views()), ops)
  {
    top := start;
    for i := 0 to |ops|
      invariant top.Valid() && fresh(top.Repr - start.Repr)
      invariant AllowedRun(top.Views(), ops[i..])
      invariant SpecRun(top.Views(), ops[i..]) == SpecRun(old(start.Views()), ops)
    {
      assert ops[i..][1..] == ops[i + 1..];
      top := Apply(top, ops[i]);
    }
  }
}
