/**
 Clearing the address manager.  Clear keeps the set of pending collisions, so
 their ids are taken for those of later entries.  What then goes wrong, and how
 it comes about from a new manager.
 */
module AddrManClear {
  import opened AddrMan
  import opened AddrManOps
  import opened AddrManRuns
  import opened AddrManEffects

  // ------------------------------------------------------------------
  // What is pending across a Clear
  // ------------------------------------------------------------------

  /** After a Clear with id 0 pending, the next address to come is taken for the pending one, and selecting it looks
      up an empty slot. */
  lemma ClearedSelect(w: World, hashes: Config, addr: Address, source: NetAddr, penalty: int, now: int, draw: nat)
    requires Agrees(w) && 0 in w.s.collisions && Sized(hashes) && hashes.routable(addr.service.ip)
    ensures var ops := [DoClear(hashes), DoAdd(addr, source, penalty, now, draw), DoSelect(0)];
            BlindAt(w, ops, 2) && !AgreesAt(w, ops, 3)
  {
    hide Mid, Add, Few, CollisionsOk;
    var ops := [DoClear(hashes), DoAdd(addr, source, penalty, now, draw), DoSelect(0)];
    var s1 := Cleared(w.s);
    ClearedIndexed(hashes, w.s);
    assert Run(w, ops, 1) == World(hashes, s1);
    var s2 := Add(hashes, s1, addr, source, penalty, now, draw).0;
    AddFresh(hashes, s1, addr, source, penalty, now, draw);
    AddKeeps(hashes, s1, addr, source, penalty, now, draw);
    AddEvolves(hashes, s1, addr, source, penalty, now, draw);
    assert Run(w, ops, 2) == World(hashes, s2);
    NextExactly(World(hashes, s2), ops[2]);
  }

  // ------------------------------------------------------------------
  // From a new manager
  // ------------------------------------------------------------------

  /** Two addresses that want the same tried slot, and different new ones. */
  ghost predicate Clash(c: Config, a: Address, b: Address) {
    && c.routable(a.service.ip) && c.routable(b.service.ip) && a.service.ip != b.service.ip
    && TriedSlot(c, a.service) == TriedSlot(c, b.service)
    && NewSlot(c, a.service, a.service.ip) != NewSlot(c, b.service, b.service.ip)
  }

  /** The first address is added as entry 0. */
  lemma FirstAdded(c: Config, b: Address, now: int) returns (s: State)
    requires Sized(c) && c.routable(b.service.ip)
    ensures Indexed(c, Empty()) && s == Add(c, Empty(), b, b.service.ip, 0, now, 0).0
    ensures Indexed(c, s) && s.nIdCount == 1 && s.tried == map[] && s.collisions == {} && s.mapInfo.Keys == {0}
    ensures s.mapInfo[0].addr.service == b.service
    ensures s.new_.Keys == {NewSlot(c, b.service, b.service.ip)}
  {
    hide Mid, Add, SlotsOf;
    EmptyIndexed(c);
    AddFresh(c, Empty(), b, b.service.ip, 0, now, 0);
    AddKeeps(c, Empty(), b, b.service.ip, 0, now, 0);
    AddEvolves(c, Empty(), b, b.service.ip, 0, now, 0);
    s := Add(c, Empty(), b, b.service.ip, 0, now, 0).0;
    assert Empty().mapInfo.Keys == {} && s.mapInfo.Keys - {0} == {} && 0 in s.mapInfo.Keys;
    OnlySlots(c, s, 0, NewSlot(c, b.service, b.service.ip));
  }

  lemma OnlySlots(c: Config, s: State, id: int, u: Slot)
    requires Indexed(c, s) && s.mapInfo.Keys == {id} && SlotsOf(s.new_, id) == {u}
    ensures s.new_.Keys == {u}
  {
    forall v ensures v in s.new_ <==> v == u {
      assert v in s.new_ ==> s.new_[v] in s.mapInfo;
      assert v in SlotsOf(s.new_, id) <==> v == u;
    }
  }

  /** The second one is added as entry 1. */
  lemma SecondAdded(c: Config, s1: State, a: Address, b: Address, now: int) returns (s: State)
    requires Indexed(c, s1) && Clash(c, a, b)
    requires s1.nIdCount == 1 && s1.tried == map[] && s1.collisions == {} && s1.mapInfo.Keys == {0}
    requires s1.mapInfo[0].addr.service == b.service && s1.new_.Keys == {NewSlot(c, b.service, b.service.ip)}
    ensures s == Add(c, s1, a, a.service.ip, 0, now, 0).0
    ensures Indexed(c, s) && s.nIdCount == 2 && s.tried == map[] && s.collisions == {} && s.mapInfo.Keys == {0, 1}
    ensures s.mapInfo[0].addr.service == b.service && s.mapInfo[1].addr.service == a.service
  {
    hide Mid, Add, SlotsOf;
    NotYetKnown(c, s1, a.service.ip);
    AddFresh(c, s1, a, a.service.ip, 0, now, 0);
    AddKeeps(c, s1, a, a.service.ip, 0, now, 0);
    AddEvolves(c, s1, a, a.service.ip, 0, now, 0);
    s := Add(c, s1, a, a.service.ip, 0, now, 0).0;
    assert s.mapInfo.Keys - {1} == {0} && 1 in s.mapInfo.Keys;
  }

  lemma NotYetKnown(c: Config, s: State, ip: NetAddr)
    requires Indexed(c, s) && s.mapInfo.Keys == {0} && s.mapInfo[0].Ip() != ip
    ensures ip !in s.mapAddr
  {
  }

  /** The one whose tried slot is taken by the other is pending. */
  lemma BothGood(c: Config, s2: State, a: Address, b: Address, nTime: int) returns (s3: State, s4: State)
    requires Indexed(c, s2) && Clash(c, a, b) && s2.nIdCount == 2 && s2.tried == map[] && s2.collisions == {}
    requires s2.mapInfo.Keys == {0, 1}
    requires s2.mapInfo[0].addr.service == b.service && s2.mapInfo[1].addr.service == a.service
    ensures s3 == Good(c, s2, a.service, true, nTime) && Indexed(c, s3)
    ensures s4 == Good(c, s3, b.service, true, nTime) && s4.collisions == {0}
  {
    hide Mid, Good, Few;
    s3 := Good(c, s2, a.service, true, nTime);
    KnownUntried(c, s2, 1);
    GoodEstablishes(c, s2, a.service, true, nTime);
    GoodKeeps(c, s2, a.service, true, nTime);
    GoodEvolves(c, s2, a.service, true, nTime);
    SecondLeft(c, s3, a, b);
    KnownUntried(c, s3, 0);
    s4 := Good(c, s3, b.service, true, nTime);
    GoodEstablishes(c, s3, b.service, true, nTime);
  }

  lemma KnownUntried(c: Config, s: State, id: int)
    requires Indexed(c, s) && id in s.mapInfo
    requires var u := TriedSlot(c, s.mapInfo[id].addr.service); u !in s.tried || s.tried[u] != id
    ensures var svc := s.mapInfo[id].addr.service; Known(s, svc) && s.mapAddr[svc.ip] == id && !s.mapInfo[id].fInTried
  {
  }

  lemma SecondLeft(c: Config, s: State, a: Address, b: Address)
    requires Indexed(c, s) && s.mapInfo.Keys == {0, 1} && Clash(c, a, b)
    requires TriedSlot(c, a.service) in s.tried && s.tried[TriedSlot(c, a.service)] == 1
    requires s.mapInfo[0].addr.service == b.service
    ensures var u := TriedSlot(c, b.service); u in s.tried && s.tried[u] != 0
  {
  }

  function ClashRun(a: Address, b: Address, now: int, nTime: int): seq<Op> {
    [DoAdd(b, b.service.ip, 0, now, 0), DoAdd(a, a.service.ip, 0, now, 0),
     DoGood(a.service, true, nTime), DoGood(b.service, true, nTime)]
  }

  /** For every pair of hashes and addresses that clash, four operations leave entry 0 pending. */
  lemma ClashPends(c: Config, a: Address, b: Address, now: int, nTime: int)
    requires Sized(c) && Clash(c, a, b)
    ensures var w := Run(World(c, Empty()), ClashRun(a, b, now, nTime), 4); InOrder(w) && w.s.collisions == {0}
  {
    hide Mid, Add, Good, Few, Clash;
    var w, ops := World(c, Empty()), ClashRun(a, b, now, nTime);
    ClashRoutable(c, a, b);
    var s1 := FirstAdded(c, b, now);
    assert Run(w, ops, 1) == World(c, s1);
    var s2 := SecondAdded(c, s1, a, b, now);
    assert Run(w, ops, 2) == World(c, s2);
    var s3, s4 := BothGood(c, s2, a, b, nTime);
    assert Run(w, ops, 3) == World(c, s3);
    assert Run(w, ops, 4) == World(c, s4);
    EmptyIndexed(c);
    QuietClears(w, ops, 4);
    RunKeeps(w, ops, 4);
  }

  lemma ClashRoutable(c: Config, a: Address, b: Address)
    requires Clash(c, a, b)
    ensures c.routable(a.service.ip) && c.routable(b.service.ip)
  {
  }

  lemma {:induction false} RunConcat(w: World, xs: seq<Op>, ys: seq<Op>, n: nat)
    requires n <= |ys|
    ensures Run(w, xs + ys, |xs| + n) == Run(Run(w, xs, |xs|), ys, n)
  {
    hide Agrees, Next;
    if n == 0 {
      RunPrefix(w, xs, ys, |xs|);
    } else {
      RunConcat(w, xs, ys, n - 1);
    }
  }

  lemma {:induction false} RunPrefix(w: World, xs: seq<Op>, ys: seq<Op>, n: nat)
    requires n <= |xs|
    ensures Run(w, xs + ys, n) == Run(w, xs, n)
  {
    hide Agrees, Next;
    if n > 0 {
      RunPrefix(w, xs, ys, n - 1);
    }
  }

  /** From a new manager: a clash, Clear, one more address, and the selection that spoils the indexes. */
  lemma ClearSpoils(c: Config, a: Address, b: Address, now: int, nTime: int, hashes: Config, addr: Address)
    requires Sized(c) && Clash(c, a, b) && Sized(hashes) && hashes.routable(addr.service.ip)
    ensures var ops := ClashRun(a, b, now, nTime)
                       + [DoClear(hashes), DoAdd(addr, addr.service.ip, 0, now, 0), DoSelect(0)];
            BlindAt(World(c, Empty()), ops, 6) && !AgreesAt(World(c, Empty()), ops, 7)
  {
    hide Agrees, Clash, Blind;
    var w, xs := World(c, Empty()), ClashRun(a, b, now, nTime);
    var ys := [DoClear(hashes), DoAdd(addr, addr.service.ip, 0, now, 0), DoSelect(0)];
    ClashPends(c, a, b, now, nTime);
    ClearedSelect(Run(w, xs, 4), hashes, addr, addr.service.ip, 0, now, 0);
    RunConcat(w, xs, ys, 2);
    RunConcat(w, xs, ys, 3);
  }
}
