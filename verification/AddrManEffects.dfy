/** What the operations of the address manager bring about, beyond keeping it consistent. */
module AddrManEffects {
  import opened Basics
  import opened AddrMan
  import opened AddrManOps
  import opened AddrManRuns

  // ------------------------------------------------------------------
  // Good
  // ------------------------------------------------------------------

  /** The entry is in its tried slot, with its statistics reset. */
  ghost predicate Established(c: Config, s: State, id: int, nTime: int) {
    && id in s.mapInfo
    && var info := s.mapInfo[id];
    && info.fInTried && info.nRefCount == 0 && info.nLastSuccess == nTime && info.nLastTry == nTime && info.nAttempts == 0
    && var u := TriedSlot(c, info.addr.service); u in s.tried && s.tried[u] == id
  }

  /** The entry that had the slot is back in the new table, in the one slot that its own source gives. */
  ghost predicate Demoted(c: Config, s: State, old_: AddrInfo, id: int) {
    && id in s.mapInfo && !s.mapInfo[id].fInTried && s.mapInfo[id].nRefCount == 1
    && s.mapInfo[id].addr == old_.addr && s.mapInfo[id].source == old_.source
    && var v := NewSlot(c, old_.addr.service, old_.source); v in s.new_ && s.new_[v] == id
  }

  /** Only entry `lost` may be gone. */
  ghost predicate OnlyLost(s: State, s': State, lost: set<int>) { s.mapInfo.Keys - lost <= s'.mapInfo.Keys <= s.mapInfo.Keys }

  /** The entry that a demotion to slot `v` may push out: one that has no other slot. */
  ghost function PushedOut(s: State, v: Slot): set<int> {
    if v in s.new_ && s.new_[v] in s.mapInfo && s.mapInfo[s.new_[v]].nRefCount == 1 then {s.new_[v]} else {}
  }

  lemma ClearNewLoses(s: State, u: Slot)
    requires RandOk(s) && (u in s.new_ ==> s.new_[u] in s.mapInfo)
    ensures OnlyLost(s, ClearNew(s, u), PushedOut(s, u))
  {
    if u in s.new_ {
      var s1 := DropSlot(s, u);
      RandFrame(s, s1);
      if s1.mapInfo[s.new_[u]].nRefCount == 0 {
        DeleteLoses(s1, s.new_[u]);
      }
    }
  }

  lemma DeleteLoses(s: State, id: int)
    requires RandOk(s) && id in s.mapInfo
    ensures Delete(s, id).mapInfo.Keys == s.mapInfo.Keys - {id}
  {
    hide SwapRandom;
    SwapRandOk(s, s.mapInfo[id].nRandomPos, |s.vRandom| - 1);
  }

  lemma EvictDemotes(c: Config, s: State, u: Slot, limbo: set<int>)
    requires Mid(c, s, limbo, 0) && u in s.tried
    ensures var id := s.tried[u];
            && id in s.mapInfo && Demoted(c, Evict(c, s, u, limbo), s.mapInfo[id], id)
            && OnlyLost(s, Evict(c, s, u, limbo), PushedOut(s, NewSlot(c, s.mapInfo[id].addr.service, s.mapInfo[id].source)))
  {
    var id, s1 := s.tried[u], LeaveTried(s, u);
    assert id in s.mapInfo && s.mapInfo[id].fInTried;
    LeaveTriedKeeps(c, s, u, limbo, 0);
    var v := NewSlot(c, s1.mapInfo[id].addr.service, s1.mapInfo[id].source);
    EvictParts(c, s, s1, u, v, id, limbo);
  }

  lemma EvictParts(c: Config, s: State, s1: State, u: Slot, v: Slot, id: int, limbo: set<int>)
    requires Mid(c, s, limbo, 0) && u in s.tried && id == s.tried[u] && id in s.mapInfo && s1 == LeaveTried(s, u)
    requires Mid(c, s1, limbo + {id}, 0) && v == NewSlot(c, s.mapInfo[id].addr.service, s.mapInfo[id].source)
    ensures Demoted(c, Evict(c, s, u, limbo), s.mapInfo[id], id)
    ensures OnlyLost(s, Evict(c, s, u, limbo), PushedOut(s, v))
  {
    hide Mid, ClearNew, RandOk;
    ClearNewTouches(c, s1, v, limbo + {id}, 0);
    SlotOfEntry(c, s1, v, limbo + {id});
    MidRand(c, s1, limbo + {id}, 0);
    ClearNewLoses(s1, v);
    assert id in ClearNew(s1, v).mapInfo && SameCore(s1.mapInfo[id], ClearNew(s1, v).mapInfo[id]);
  }

  lemma SlotOfEntry(c: Config, s: State, v: Slot, limbo: set<int>)
    requires Mid(c, s, limbo, 0)
    ensures v in s.new_ ==> s.new_[v] in s.mapInfo
  {
  }

  /** The holder of the tried slot, if any, is demoted, and at most the entry it pushes out is lost. */
  ghost predicate Displaced(c: Config, s: State, s': State, id: int, u: Slot) {
    if u in s.tried then
      var h := s.tried[u];
      && h in s.mapInfo && Demoted(c, s', s.mapInfo[h], h)
      && OnlyLost(s, s', PushedOut(s, NewSlot(c, s.mapInfo[h].addr.service, s.mapInfo[h].source)) - {id})
    else s'.mapInfo.Keys == s.mapInfo.Keys
  }

  lemma MakeRoomDisplaces(c: Config, s: State, id: int)
    requires Indexed(c, s) && id in s.mapInfo && !s.mapInfo[id].fInTried
    ensures Displaced(c, s, MakeRoom(c, s, id), id, TriedSlot(c, s.mapInfo[id].addr.service))
  {
    LeaveNewKeeps(c, s, id);
    var s1, u := LeaveNew(c, s, id), TriedSlot(c, s.mapInfo[id].addr.service);
    if u in s.tried {
      var h := s.tried[u];
      assert h in s.mapInfo && s.mapInfo[h].fInTried;
      EvictDemotes(c, s1, u, {id});
      var v := NewSlot(c, s.mapInfo[h].addr.service, s.mapInfo[h].source);
      LeavesNoSlot(c, s, id, v);
    }
  }

  /** An entry that left the new table is pushed out by nobody. */
  lemma LeavesNoSlot(c: Config, s: State, id: int, v: Slot)
    requires Indexed(c, s) && id in s.mapInfo && !s.mapInfo[id].fInTried
    ensures PushedOut(LeaveNew(c, s, id), v) == PushedOut(s, v) - {id}
  {
    if v in s.new_ {
      assert v == NewSlotIn(c, s.mapInfo[s.new_[v]].addr.service, v.0);
    }
  }

  lemma MakeTriedMoves(c: Config, s: State, id: int)
    requires Indexed(c, s) && id in s.mapInfo && !s.mapInfo[id].fInTried
    ensures var s', u := MakeTried(c, s, id), TriedSlot(c, s.mapInfo[id].addr.service);
            && id in s'.mapInfo && SameCore(s.mapInfo[id].(nRefCount := 0, fInTried := true), s'.mapInfo[id])
            && u in s'.tried && s'.tried[u] == id && Displaced(c, s, s', id, u)
  {
    hide MakeRoom, Mid;
    MakeRoomTouches(c, s, id);
    MakeRoomDisplaces(c, s, id);
    HolderIsOther(c, s, id);
  }

  lemma HolderIsOther(c: Config, s: State, id: int)
    requires Indexed(c, s) && id in s.mapInfo && !s.mapInfo[id].fInTried
    ensures forall u :: u in s.tried ==> s.tried[u] != id
  {
  }

  /** The entry of an address that proves good is established in the tried table, unless the table is to be tested
      first and the slot is taken: then the address becomes one more pending collision, while there is room. */
  lemma GoodEstablishes(c: Config, s: State, svc: Service, testBeforeEvict: bool, nTime: int)
    requires Indexed(c, s) && Known(s, svc) && !s.mapInfo[s.mapAddr[svc.ip]].fInTried
    ensures var s', id, u := Good(c, s, svc, testBeforeEvict, nTime), s.mapAddr[svc.ip], TriedSlot(c, svc);
            if testBeforeEvict && u in s.tried then
              && s'.tried == s.tried && s'.new_ == s.new_ && s'.mapInfo.Keys == s.mapInfo.Keys
              && s'.collisions == (if |s.collisions| < SET_TRIED_COLLISION_SIZE then s.collisions + {id} else s.collisions)
            else
              Established(c, s', id, nTime) && Displaced(c, s, s', id, u) && s'.collisions == s.collisions
  {
    hide Mid, MakeTried;
    var id := s.mapAddr[svc.ip];
    var s1 := PutInfo(s.(nLastGood := nTime), id, Marked(s.mapInfo[id], nTime));
    MarkKeeps(c, s, id, nTime);
    if !(testBeforeEvict && TriedSlot(c, svc) in s.tried) {
      MakeTriedMoves(c, s1, id);
      MakeTriedTouches(c, s1, id);
      HolderIsOther(c, s, id);
      MarkDisplaces(c, s, s1, MakeTried(c, s1, id), id, TriedSlot(c, svc));
    }
  }

  lemma MarkDisplaces(c: Config, s: State, s1: State, s': State, id: int, u: Slot)
    requires id in s.mapInfo && (exists info :: s1 == PutInfo(s.(nLastGood := s1.nLastGood), id, info) && info.nRefCount == s.mapInfo[id].nRefCount)
    requires u in s.tried ==> s.tried[u] != id
    requires Displaced(c, s1, s', id, u)
    ensures Displaced(c, s, s', id, u)
  {
  }

  /** An address that is not known changes no entry and no table; one that is tried already only its statistics. */
  lemma GoodOtherwise(c: Config, s: State, svc: Service, testBeforeEvict: bool, nTime: int)
    requires Indexed(c, s) && (Known(s, svc) ==> s.mapInfo[s.mapAddr[svc.ip]].fInTried)
    ensures var s' := Good(c, s, svc, testBeforeEvict, nTime);
            && s'.nLastGood == nTime && s'.tried == s.tried && s'.new_ == s.new_ && s'.collisions == s.collisions
            && s'.mapInfo.Keys == s.mapInfo.Keys
            && (Known(s, svc) ==> Established(c, s', s.mapAddr[svc.ip], nTime))
            && (!Known(s, svc) ==> s'.mapInfo == s.mapInfo)
  {
    if Known(s, svc) {
      var id := s.mapAddr[svc.ip];
      assert id in s.mapInfo && s.mapInfo[id].fInTried && s.mapInfo[id].nRefCount == 0;
    }
  }

  // ------------------------------------------------------------------
  // Add
  // ------------------------------------------------------------------

  /** Deleting the entry that was created last undoes its creation, but for the id. */
  lemma DeleteUndoesCreate(s: State, addr: Address, source: NetAddr)
    requires RandOk(s) && IdsOk(s) && addr.service.ip !in s.mapAddr
    ensures var s1 := Create(s, addr, source).(nNew := s.nNew + 1);
            && RandOk(s1) && s.nIdCount in s1.mapInfo
            && Delete(s1, s.nIdCount) == s.(nIdCount := s.nIdCount + 1)
  {
    CreateRandOk(s, addr, source);
    var s1, id := Create(s, addr, source).(nNew := s.nNew + 1), s.nIdCount;
    RandFrame(Create(s, addr, source), s1);
    PopUndoesCreate(s, s1, addr, source);
  }

  lemma PopUndoesCreate(s: State, s1: State, addr: Address, source: NetAddr)
    requires IdsOk(s) && addr.service.ip !in s.mapAddr && s1 == Create(s, addr, source).(nNew := s.nNew + 1) && RandOk(s1)
    ensures Delete(s1, s.nIdCount) == s.(nIdCount := s.nIdCount + 1)
  {
    hide RandOk;
    var id := s.nIdCount;
    assert id !in s.mapInfo && s1.mapInfo[id].nRandomPos == |s1.vRandom| - 1;
    assert s1.vRandom[..|s.vRandom|] == s.vRandom;
    assert s1.mapInfo - {id} == s.mapInfo;
    assert s1.mapAddr - {addr.service.ip} == s.mapAddr;
  }

  /** The new slot of the announced address is taken by an entry that must stay. */
  predicate Refused(c: Config, s: State, svc: Service, source: NetAddr, now: int) {
    var u := NewSlot(c, svc, source);
    && u in s.new_ && s.new_[u] in s.mapInfo
    && var other := s.mapInfo[s.new_[u]]; !IsTerrible(other, now) && other.nRefCount <= 1
  }

  /** Entry `id` is new, in slot `u` and no other. */
  ghost predicate Settled(s: State, id: int, addr: Address, source: NetAddr, u: Slot) {
    && id in s.mapInfo
    && var info := s.mapInfo[id];
    && info.addr == addr && info.source == source && !info.fInTried && info.nRefCount == 1
    && u in s.new_ && s.new_[u] == id && SlotsOf(s.new_, id) == {u}
  }

  lemma AddFresh(c: Config, s: State, addr: Address, source: NetAddr, nTimePenalty: int, now: int, draw: nat)
    requires Indexed(c, s) && c.routable(addr.service.ip) && addr.service.ip !in s.mapAddr
    ensures var (s', isNew) := Add(c, s, addr, source, nTimePenalty, now, draw);
            var u, id := NewSlot(c, addr.service, source), s.nIdCount;
            var penalty := if addr.service.ip == source then 0 else nTimePenalty;
            && isNew && s'.nIdCount == id + 1 && s'.tried == s.tried
            && if Refused(c, s, addr.service, source, now) then s' == s.(nIdCount := id + 1)
               else
                 && Settled(s', id, addr.(nTime := U32(Max(0, addr.nTime - penalty))), source, u)
                 && s.mapInfo.Keys - PushedOut(s, u) <= s'.mapInfo.Keys - {id} <= s.mapInfo.Keys
  {
    hide Mid;
    var penalty := if addr.service.ip == source then 0 else nTimePenalty;
    var dated := addr.(nTime := U32(Max(0, addr.nTime - penalty)));
    var s1, id, u := Enrolled(s, addr, source, penalty), s.nIdCount, NewSlot(c, addr.service, source);
    EnrolledPlaceable(c, s, addr, source, penalty);
    EnrolledEntry(c, s, addr, source, penalty, u);
    if Refused(c, s, addr.service, source, now) {
      IndexesOk(c, s);
      DeleteUndoesCreate(s, dated, source);
    } else {
      PlacedFresh(c, s1, id, source, now, u);
      EnrolledPushes(c, s, addr, source, penalty, u);
    }
  }

  /** A manager that holds one entry, new and with one reference, under id `id`. */
  function Single(c: Config, id: int, nIdCount: int, svc: Service, mapAddr: map<NetAddr, int>): State {
    var info := AddrInfo(Address(svc, 1, {}), svc.ip, 0, 0, 0, 0, 1, false, 0);
    State(nIdCount, map[id := info], mapAddr, [id], 0, map[], 1, map[NewSlot(c, svc, svc.ip) := id], 1, {})
  }

  /** Tables of a single slot. */
  function OneSlot(): Config { Config(1, 1, 1, _ => 0, (_, _) => 0, (_, _, _) => 0, _ => true, _ => true) }

  /** Add answers true and keeps nothing: the only slot is taken by an entry that is good enough. */
  lemma RefusedForExample(svc: Service, other: Service, source: NetAddr)
    requires other.ip != svc.ip
    ensures var c := OneSlot();
            var s, addr := Single(c, 0, 1, svc, map[svc.ip := 0]), Address(other, 1, {});
            && Consistent(c, s) && Refused(c, s, other, source, 1)
            && Add(c, s, addr, source, 0, 1, 0) == (s.(nIdCount := 2), true)
  {
    hide Mid, TimeOk, Add;
    OneSlotSized();
    SingleIndexed(OneSlot(), 0, 1, svc);
    AddFresh(OneSlot(), Single(OneSlot(), 0, 1, svc, map[svc.ip := 0]), Address(other, 1, {}), source, 0, 1, 0);
  }

  lemma OneSlotSized()
    ensures Sized(OneSlot())
  {
  }

  lemma SingleIndexed(c: Config, id: nat, nIdCount: nat, svc: Service)
    requires Sized(c) && id < nIdCount
    ensures Consistent(c, Single(c, id, nIdCount, svc, map[svc.ip := id]))
  {
    hide Sized, TriedOk, RandOk;
    var s, u := Single(c, id, nIdCount, svc, map[svc.ip := id]), NewSlot(c, svc, svc.ip);
    assert NewIds(s.mapInfo, {}) == {id} && TriedIds(s.mapInfo) == {};
    assert SlotsOf(s.new_, id) == {u};
    NewSlotFits(c, svc, svc.ip);
    SingleTables(c, s);
  }

  lemma SingleTables(c: Config, s: State)
    requires s.tried == map[] && |s.vRandom| == 1 && s.mapInfo.Keys == {s.vRandom[0]}
    requires var info := s.mapInfo[s.vRandom[0]]; info.nRandomPos == 0 && !info.fInTried
    ensures TriedOk(c, s) && RandOk(s)
  {
  }

  lemma IndexesOk(c: Config, s: State)
    requires Indexed(c, s)
    ensures RandOk(s) && IdsOk(s)
  {
  }

  lemma EnrolledEntry(c: Config, s: State, addr: Address, source: NetAddr, penalty: int, u: Slot)
    requires Indexed(c, s) && addr.service.ip !in s.mapAddr
    ensures var s1, id := Enrolled(s, addr, source, penalty), s.nIdCount;
            && id !in s.mapInfo && id in s1.mapInfo && s1.mapInfo[id].nRefCount == 0 && !s1.mapInfo[id].fInTried
            && s1.mapInfo[id].addr == addr.(nTime := U32(Max(0, addr.nTime - penalty))) && s1.mapInfo[id].source == source
            && (u in s.new_ ==> s.new_[u] in s.mapInfo && s.new_[u] != id && s1.mapInfo[s.new_[u]] == s.mapInfo[s.new_[u]])
            && SlotsOf(s.new_, id) == {} && s1.mapInfo.Keys == s.mapInfo.Keys + {id}
  {
    var id := s.nIdCount;
    assert forall v :: v in s.new_ ==> s.new_[v] != id;
  }

  lemma EnrolledPushes(c: Config, s: State, addr: Address, source: NetAddr, penalty: int, u: Slot)
    requires Indexed(c, s) && addr.service.ip !in s.mapAddr
    ensures PushedOut(Enrolled(s, addr, source, penalty), u) == PushedOut(s, u)
  {
    EnrolledEntry(c, s, addr, source, penalty, u);
  }

  /** A freshly created entry gets its slot. */
  lemma PlacedFresh(c: Config, s: State, id: int, source: NetAddr, now: int, u: Slot)
    requires Placeable(c, s, id, true) && u == NewSlot(c, s.mapInfo[id].addr.service, source)
    requires s.mapInfo[id].nRefCount == 0 && SlotsOf(s.new_, id) == {} && s.mapInfo[id].source == source
    requires (u in s.new_ ==> s.new_[u] in s.mapInfo) && !Blocked(s, u, id, now)
    ensures var s' := PlaceNew(c, s, id, source, now, true);
            && Settled(s', id, s.mapInfo[id].addr, source, u) && s'.tried == s.tried && s'.nIdCount == s.nIdCount
            && OnlyLost(s, s', PushedOut(s, u))
  {
    hide Mid, ClearNew, RandOk;
    SlotFree(s, id);
    ClearNewTouches(c, s, u, {id}, 1);
    MidRand(c, s, {id}, 1);
    ClearNewLoses(s, u);
    var s1 := ClearNew(s, u);
    assert id in s1.mapInfo && SameCore(s.mapInfo[id], s1.mapInfo[id]);
    ClearNewSlots(s, u, id);
    assert SlotsOf(TakeSlot(s1, u, id).new_, id) == {u};
  }

  lemma SlotFree(s: State, id: int)
    requires SlotsOf(s.new_, id) == {}
    ensures forall v :: v in s.new_ ==> s.new_[v] != id
  {
    forall v | v in s.new_ ensures s.new_[v] != id {
      assert v !in SlotsOf(s.new_, id);
    }
  }

  lemma MidRand(c: Config, s: State, limbo: set<int>, extra: int)
    requires Mid(c, s, limbo, extra)
    ensures RandOk(s)
  {
  }

  lemma ClearNewSlots(s: State, u: Slot, id: int)
    requires RandOk(s) && (u in s.new_ ==> s.new_[u] in s.mapInfo) && forall v :: v in s.new_ ==> s.new_[v] != id
    ensures forall v :: v in ClearNew(s, u).new_ ==> ClearNew(s, u).new_[v] != id
  {
    if u in s.new_ {
      var s1 := DropSlot(s, u);
      RandFrame(s, s1);
    }
  }

  /** A known address that is announced again keeps its entry; it gains at most the one slot that this source gives. */
  lemma AddAgain(c: Config, s: State, addr: Address, source: NetAddr, nTimePenalty: int, now: int, draw: nat)
    requires Indexed(c, s) && c.routable(addr.service.ip) && addr.service.ip in s.mapAddr
    ensures var (s', isNew) := Add(c, s, addr, source, nTimePenalty, now, draw);
            var id := s.mapAddr[addr.service.ip];
            var penalty := if addr.service.ip == source then 0 else nTimePenalty;
            && !isNew && s'.nIdCount == s.nIdCount && s'.tried == s.tried && id in s.mapInfo && id in s'.mapInfo
            && var told := Announced(s.mapInfo[id], addr, penalty, now);
            && var u := NewSlot(c, told.addr.service, source);
            && s'.mapInfo[id].addr == told.addr
            && if s'.mapInfo[id].nRefCount == s.mapInfo[id].nRefCount then s'.new_ == s.new_ && s'.mapInfo.Keys == s.mapInfo.Keys
               else
                 && !NothingNew(told, addr, draw) && s'.mapInfo[id].nRefCount == s.mapInfo[id].nRefCount + 1
                 && u in s'.new_ && s'.new_[u] == id && !(u in s.new_ && s.new_[u] == id)
                 && OnlyLost(s, s', PushedOut(s, u))
  {
    hide Mid, ClearNew;
    var id := s.mapAddr[addr.service.ip];
    var penalty := if addr.service.ip == source then 0 else nTimePenalty;
    KnownEntry(c, s, addr.service.ip);
    var told := Announced(s.mapInfo[id], addr, penalty, now);
    var s1, u := PutInfo(s, id, told), NewSlot(c, told.addr.service, source);
    if !NothingNew(told, addr, draw) {
      AnnouncedPlaceable(c, s, id, addr, penalty, now);
      PlacedAgain(c, s1, id, source, now, u);
      SamePushedOut(s, id, told, u);
    }
  }

  lemma KnownEntry(c: Config, s: State, ip: NetAddr)
    requires Indexed(c, s) && ip in s.mapAddr
    ensures s.mapAddr[ip] in s.mapInfo && s.mapInfo[s.mapAddr[ip]].Ip() == ip
  {
  }

  lemma SamePushedOut(s: State, id: int, info: AddrInfo, u: Slot)
    requires id in s.mapInfo && info.nRefCount == s.mapInfo[id].nRefCount
    ensures PushedOut(PutInfo(s, id, info), u) == PushedOut(s, u)
  {
  }

  lemma PlacedAgain(c: Config, s: State, id: int, source: NetAddr, now: int, u: Slot)
    requires Placeable(c, s, id, false) && u == NewSlot(c, s.mapInfo[id].addr.service, source)
    ensures var s' := PlaceNew(c, s, id, source, now, false);
            && s'.tried == s.tried && s'.nIdCount == s.nIdCount && id in s'.mapInfo && s'.mapInfo[id].addr == s.mapInfo[id].addr
            && if s' == s then true
               else
                 && s'.mapInfo[id].nRefCount == s.mapInfo[id].nRefCount + 1 && u in s'.new_ && s'.new_[u] == id
                 && !(u in s.new_ && s.new_[u] == id) && OnlyLost(s, s', PushedOut(s, u))
  {
    hide Mid, ClearNew, RandOk, Delete;
    SlotOfEntry(c, s, u, {});
    PlaceNewRefused(c, s, id, false);
    if !(u in s.new_ && s.new_[u] == id) && !Blocked(s, u, id, now) {
      ClearNewTouches(c, s, u, {}, 0);
      MidRand(c, s, {}, 0);
      ClearNewLoses(s, u);
      var s1 := ClearNew(s, u);
      assert id in s1.mapInfo && SameCore(s.mapInfo[id], s1.mapInfo[id]);
    }
  }

  // ------------------------------------------------------------------
  // Pending collisions
  // ------------------------------------------------------------------

  /** A pending entry that wins its collision is established in the tried table and pending no more. */
  lemma ResolveEstablishes(c: Config, s: State, id: int, now: int)
    requires Indexed(c, s) && id in s.mapInfo && !s.mapInfo[id].fInTried && Judge(c, s, id, now) == Replace
    ensures var s', u := ResolveOne(c, s, id, now), TriedSlot(c, s.mapInfo[id].addr.service);
            && Established(c, s', id, now) && Displaced(c, s, s', id, u) && s'.collisions == s.collisions - {id}
  {
    hide Mid, Good, Displaced;
    var svc := s.mapInfo[id].addr.service;
    FoundByAddress(c, s, id);
    GoodEstablishes(c, s, svc, false, now);
    var s1 := Good(c, s, svc, false, now);
    DisplacedFrame(c, s, s1, ResolveOne(c, s, id, now), id, TriedSlot(c, svc));
  }

  lemma FoundByAddress(c: Config, s: State, id: int)
    requires Indexed(c, s) && id in s.mapInfo
    ensures Known(s, s.mapInfo[id].addr.service) && s.mapAddr[s.mapInfo[id].Ip()] == id
  {
  }

  lemma DisplacedFrame(c: Config, s: State, s1: State, s': State, id: int, u: Slot)
    requires Displaced(c, s, s1, id, u) && s' == s1.(collisions := s'.collisions)
    ensures Displaced(c, s, s', id, u)
  {
  }
}
