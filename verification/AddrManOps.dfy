/** The operations of the address manager, and that each keeps its indexes right. */
module AddrManOps {
  import opened Basics
  import opened Powers
  import opened AddrMan

  /** The value that a 64-bit time takes in an unsigned 32-bit field. */
  function U32(x: int): int { x % 0x1_0000_0000 }

  // ------------------------------------------------------------------
  // Good, Attempt, Connected, SetServices
  // ------------------------------------------------------------------

  /** The entry for exactly this address and port. */
  predicate Known(s: State, svc: Service) {
    svc.ip in s.mapAddr && s.mapAddr[svc.ip] in s.mapInfo && s.mapInfo[s.mapAddr[svc.ip]].addr.service == svc
  }

  function Marked(info: AddrInfo, nTime: int): AddrInfo {
    info.(nLastSuccess := nTime, nLastTry := nTime, nAttempts := 0)
  }

  /** After the statistics are updated, an untried entry moves to the tried table or becomes a collision. */
  function Promote(c: Config, s: State, id: int, testBeforeEvict: bool): State
    requires Indexed(c, s) && id in s.mapInfo && !s.mapInfo[id].fInTried
  {
    if testBeforeEvict && TriedSlot(c, s.mapInfo[id].addr.service) in s.tried then
      if |s.collisions| < SET_TRIED_COLLISION_SIZE then s.(collisions := s.collisions + {id}) else s
    else
      MakeTried(c, s, id)
  }

  function Good(c: Config, s: State, svc: Service, testBeforeEvict: bool, nTime: int): State
    requires Indexed(c, s)
  {
    var s0 := s.(nLastGood := nTime);
    if !Known(s0, svc) then s0
    else
      var id := s0.mapAddr[svc.ip];
      var s1 := PutInfo(s0, id, Marked(s0.mapInfo[id], nTime));
      MarkKeeps(c, s, id, nTime);
      if s1.mapInfo[id].fInTried then s1 else Promote(c, s1, id, testBeforeEvict)
  }

  /** Fields that the consistency does not mention. */
  lemma Unindexed(c: Config, s: State, nLastGood: int, collisions: set<int>)
    requires Indexed(c, s)
    ensures Indexed(c, s.(nLastGood := nLastGood, collisions := collisions))
  {
    var s' := s.(nLastGood := nLastGood, collisions := collisions);
    NamedFrame(s, s');
    RandFrame(s, s');
    TriedFrame(c, s, s');
    NewFrame(c, s, s');
    RefFrame(s, s', {});
    CountFrame(s, s', {}, 0);
  }

  lemma MarkKeeps(c: Config, s: State, id: int, nTime: int)
    requires Indexed(c, s) && id in s.mapInfo
    ensures Indexed(c, PutInfo(s.(nLastGood := nTime), id, Marked(s.mapInfo[id], nTime)))
  {
    hide Mid;
    Unindexed(c, s, nTime, s.collisions);
    TouchKeeps(c, s.(nLastGood := nTime), id, Marked(s.mapInfo[id], nTime), {}, 0);
  }

  /** An untried entry is in some new bucket: the search for it in Good cannot fail. */
  lemma NewEntryHasSlot(c: Config, s: State, id: int) returns (b: int)
    requires Indexed(c, s) && id in s.mapInfo && !s.mapInfo[id].fInTried
    ensures 0 <= b < c.nNewBuckets
    ensures var u := NewSlotIn(c, s.mapInfo[id].addr.service, b); u in s.new_ && s.new_[u] == id
  {
    assert SlotsOf(s.new_, id) != {};
    var u :| u in SlotsOf(s.new_, id);
    b := u.0;
  }

  lemma PromoteKeeps(c: Config, s: State, id: int, testBeforeEvict: bool)
    requires Indexed(c, s) && id in s.mapInfo && !s.mapInfo[id].fInTried
    ensures Indexed(c, Promote(c, s, id, testBeforeEvict))
  {
    if testBeforeEvict && TriedSlot(c, s.mapInfo[id].addr.service) in s.tried {
      Unindexed(c, s, s.nLastGood, s.collisions + {id});
    } else {
      MakeTriedKeeps(c, s, id);
    }
  }

  lemma GoodKeeps(c: Config, s: State, svc: Service, testBeforeEvict: bool, nTime: int)
    requires Indexed(c, s)
    ensures Indexed(c, Good(c, s, svc, testBeforeEvict, nTime))
  {
    if !Known(s, svc) {
      Unindexed(c, s, nTime, s.collisions);
    } else {
      var id := s.mapAddr[svc.ip];
      var s1 := PutInfo(s.(nLastGood := nTime), id, Marked(s.mapInfo[id], nTime));
      MarkKeeps(c, s, id, nTime);
      if !s1.mapInfo[id].fInTried {
        PromoteKeeps(c, s1, id, testBeforeEvict);
      }
    }
  }

  function Attempt(s: State, svc: Service, fCountFailure: bool, nTime: int): State {
    if !Known(s, svc) then s
    else
      var id := s.mapAddr[svc.ip];
      var info := s.mapInfo[id].(nLastTry := nTime);
      PutInfo(s, id, if fCountFailure && info.nLastCountAttempt < s.nLastGood
                     then info.(nLastCountAttempt := nTime, nAttempts := info.nAttempts + 1) else info)
  }

  lemma AttemptKeeps(c: Config, s: State, svc: Service, fCountFailure: bool, nTime: int)
    requires Indexed(c, s)
    ensures Indexed(c, Attempt(s, svc, fCountFailure, nTime))
  {
    hide Mid;
    if Known(s, svc) {
      var id := s.mapAddr[svc.ip];
      TouchKeeps(c, s, id, Attempt(s, svc, fCountFailure, nTime).mapInfo[id], {}, 0);
    }
  }

  function Connected(s: State, svc: Service, nTime: int): State {
    if !Known(s, svc) then s
    else
      var id := s.mapAddr[svc.ip];
      var info := s.mapInfo[id];
      if nTime - info.addr.nTime > 20 * 60 then PutInfo(s, id, info.(addr := info.addr.(nTime := U32(nTime)))) else s
  }

  function SetServices(s: State, svc: Service, nServices: set<nat>): State {
    if !Known(s, svc) then s
    else
      var id := s.mapAddr[svc.ip];
      PutInfo(s, id, s.mapInfo[id].(addr := s.mapInfo[id].addr.(nServices := nServices)))
  }

  lemma ConnectedKeeps(c: Config, s: State, svc: Service, nTime: int, nServices: set<nat>)
    requires Indexed(c, s)
    ensures Indexed(c, Connected(s, svc, nTime)) && Indexed(c, SetServices(s, svc, nServices))
  {
    if Known(s, svc) {
      var id := s.mapAddr[svc.ip];
      TouchKeeps(c, s, id, Connected(s, svc, nTime).mapInfo[id], {}, 0);
      TouchKeeps(c, s, id, SetServices(s, svc, nServices).mapInfo[id], {}, 0);
    }
  }

  // ------------------------------------------------------------------
  // Add
  // ------------------------------------------------------------------

  /** The slot holds another entry that must not be overwritten. */
  predicate Blocked(s: State, u: Slot, id: int, now: int)
    requires id in s.mapInfo && (u in s.new_ ==> s.new_[u] in s.mapInfo)
  {
    && u in s.new_
    && var other := s.mapInfo[s.new_[u]];
       !(IsTerrible(other, now) || (other.nRefCount > 1 && s.mapInfo[id].nRefCount == 0))
  }

  /** The last part of Add: entry `id` tries to get one more new slot.  `created` says that it was made just now. */
  function PlaceNew(c: Config, s: State, id: int, source: NetAddr, now: int, ghost created: bool): State
    requires Placeable(c, s, id, created)
  {
    var u := NewSlot(c, s.mapInfo[id].addr.service, source);
    if u in s.new_ && s.new_[u] == id then s
    else if !Blocked(s, u, id, now) then
      ClearNewTouches(c, s, u, if created then {id} else {}, if created then 1 else 0);
      TakeSlot(ClearNew(s, u), u, id)
    else if s.mapInfo[id].nRefCount == 0 then Delete(s, id)
    else s
  }

  ghost predicate Placeable(c: Config, s: State, id: int, created: bool) {
    && Mid(c, s, if created then {id} else {}, if created then 1 else 0)
    && id in s.mapInfo && !s.mapInfo[id].fInTried && s.mapInfo[id].nRefCount < NEW_BUCKETS_PER_ADDRESS
  }

  lemma PlaceNewKeeps(c: Config, s: State, id: int, source: NetAddr, now: int, created: bool)
    requires Placeable(c, s, id, created)
    ensures Indexed(c, PlaceNew(c, s, id, source, now, created))
  {
    var limbo, extra := if created then {id} else {}, if created then 1 else 0;
    var u := NewSlot(c, s.mapInfo[id].addr.service, source);
    if u in s.new_ && s.new_[u] == id {
      PlaceNewHeld(c, s, u, id, created);
    } else if !Blocked(s, u, id, now) {
      ClearNewKeeps(c, s, u, limbo, extra);
      ClearNewTouches(c, s, u, limbo, extra);
      NewSlotFits(c, s.mapInfo[id].addr.service, source);
      TakeKeeps(c, ClearNew(s, u), u, id, limbo, extra);
      assert limbo - {id} == {};
    } else {
      PlaceNewRefused(c, s, id, created);
    }
  }

  lemma PlaceNewHeld(c: Config, s: State, u: Slot, id: int, created: bool)
    requires Placeable(c, s, id, created) && u in s.new_ && s.new_[u] == id
    ensures !created
  {
    assert u in SlotsOf(s.new_, id);
  }

  lemma PlaceNewRefused(c: Config, s: State, id: int, created: bool)
    requires Placeable(c, s, id, created)
    ensures s.mapInfo[id].nRefCount == 0 <==> created
    ensures created ==> Indexed(c, Delete(s, id))
  {
    if created {
      DeleteKeeps(c, s, id, {id}, 1);
      assert {id} - {id} == {};
    }
  }

  /** The time field of a known entry after an announcement of it. */
  function AnnouncedTime(info: AddrInfo, addr: Address, penalty: int, now: int): int {
    var interval := if now - addr.nTime < 24 * 60 * 60 then 60 * 60 else 24 * 60 * 60;
    if addr.nTime != 0 && (info.addr.nTime == 0 || info.addr.nTime < addr.nTime - interval - penalty)
    then U32(Max(0, addr.nTime - penalty)) else info.addr.nTime
  }

  function Announced(info: AddrInfo, addr: Address, penalty: int, now: int): AddrInfo {
    info.(addr := Address(info.addr.service, AnnouncedTime(info, addr, penalty, now), info.addr.nServices + addr.nServices))
  }

  /** An announcement that says nothing new, or whose stochastic test fails, changes no table. */
  predicate NothingNew(info: AddrInfo, addr: Address, draw: nat) {
    || addr.nTime == 0 || (info.addr.nTime != 0 && addr.nTime <= info.addr.nTime)
    || info.fInTried
    || info.nRefCount == NEW_BUCKETS_PER_ADDRESS
    || (info.nRefCount > 0 && draw % Pow(2, info.nRefCount) != 0)
  }

  function Enrolled(s: State, addr: Address, source: NetAddr, penalty: int): State {
    var dated := addr.(nTime := U32(Max(0, addr.nTime - penalty)));
    Create(s, dated, source).(nNew := s.nNew + 1)
  }

  /** `draw` is the random number of the stochastic test.  The flag says that the entry was created, which is
      not to say that it was kept. */
  function Add(c: Config, s: State, addr: Address, source: NetAddr, nTimePenalty: int, now: int, draw: nat): (State, bool)
    requires Indexed(c, s)
  {
    if !c.routable(addr.service.ip) then (s, false)
    else
      var penalty := if addr.service.ip == source then 0 else nTimePenalty;
      if addr.service.ip in s.mapAddr then
        var id := s.mapAddr[addr.service.ip];
        var s1 := PutInfo(s, id, Announced(s.mapInfo[id], addr, penalty, now));
        if NothingNew(s1.mapInfo[id], addr, draw) then (s1, false)
        else
          AnnouncedPlaceable(c, s, id, addr, penalty, now);
          (PlaceNew(c, s1, id, source, now, false), false)
      else
        EnrolledPlaceable(c, s, addr, source, penalty);
        (PlaceNew(c, Enrolled(s, addr, source, penalty), s.nIdCount, source, now, true), true)
  }

  lemma AnnouncedKeeps(c: Config, s: State, id: int, addr: Address, penalty: int, now: int)
    requires Indexed(c, s) && id in s.mapInfo
    ensures Indexed(c, PutInfo(s, id, Announced(s.mapInfo[id], addr, penalty, now)))
  {
    TouchKeeps(c, s, id, Announced(s.mapInfo[id], addr, penalty, now), {}, 0);
  }

  lemma AnnouncedPlaceable(c: Config, s: State, id: int, addr: Address, penalty: int, now: int)
    requires Indexed(c, s) && id in s.mapInfo && !s.mapInfo[id].fInTried
    requires s.mapInfo[id].nRefCount != NEW_BUCKETS_PER_ADDRESS
    ensures Placeable(c, PutInfo(s, id, Announced(s.mapInfo[id], addr, penalty, now)), id, false)
  {
    AnnouncedKeeps(c, s, id, addr, penalty, now);
  }

  lemma EnrolledPlaceable(c: Config, s: State, addr: Address, source: NetAddr, penalty: int)
    requires Indexed(c, s) && addr.service.ip !in s.mapAddr
    ensures Placeable(c, Enrolled(s, addr, source, penalty), s.nIdCount, true)
  {
    hide Mid;
    var dated := addr.(nTime := U32(Max(0, addr.nTime - penalty)));
    CreateKeeps(c, s, dated, source, {}, 0);
    assert {} + {s.nIdCount} == {s.nIdCount};
    CountUp(c, Create(s, dated, source), {s.nIdCount}, 0);
  }

  lemma AddKeeps(c: Config, s: State, addr: Address, source: NetAddr, nTimePenalty: int, now: int, draw: nat)
    requires Indexed(c, s)
    ensures Indexed(c, Add(c, s, addr, source, nTimePenalty, now, draw).0)
  {
    if c.routable(addr.service.ip) {
      var penalty := if addr.service.ip == source then 0 else nTimePenalty;
      if addr.service.ip in s.mapAddr {
        var id := s.mapAddr[addr.service.ip];
        var s1 := PutInfo(s, id, Announced(s.mapInfo[id], addr, penalty, now));
        AnnouncedKeeps(c, s, id, addr, penalty, now);
        if !NothingNew(s1.mapInfo[id], addr, draw) {
          PlaceNewKeeps(c, s1, id, source, now, false);
        }
      } else {
        EnrolledPlaceable(c, s, addr, source, penalty);
        PlaceNewKeeps(c, Enrolled(s, addr, source, penalty), s.nIdCount, source, now, true);
      }
    }
  }

  // ------------------------------------------------------------------
  // GetAddr
  // ------------------------------------------------------------------

  function GetAddrLimit(s: State): nat { Min(GETADDR_MAX_PCT * |s.vRandom| / 100, GETADDR_MAX) }

  /** A position from `n` on, drawn at random. */
  function Drawn(s: State, draws: nat -> nat, n: nat): (i: nat)
    requires n < |s.vRandom|
    ensures n <= i < |s.vRandom|
  {
    draws(n) % (|s.vRandom| - n) + n
  }

  function Collect(s: State, now: int, n: nat, vAddr: seq<Address>): seq<Address>
    requires n < |s.vRandom| && s.vRandom[n] in s.mapInfo
  {
    var info := s.mapInfo[s.vRandom[n]];
    if IsTerrible(info, now) then vAddr else vAddr + [info.addr]
  }

  /** The loop of GetAddr from position `n` on: a partial shuffle of vRandom that collects good addresses.
      `draws` are the random numbers. */
  function Gather(s: State, now: int, draws: nat -> nat, limit: nat, n: nat, vAddr: seq<Address>): (State, seq<Address>)
    requires RandOk(s)
    decreases |s.vRandom| - n
  {
    if n >= |s.vRandom| || |vAddr| >= limit then (s, vAddr)
    else
      var i := Drawn(s, draws, n);
      SwapRandOk(s, n, i);
      SwapMoves(s, n, i);
      var s1 := SwapRandom(s, n, i);
      Gather(s1, now, draws, limit, n + 1, Collect(s1, now, n, vAddr))
  }

  lemma GatherNext(s: State, now: int, draws: nat -> nat, limit: nat, n: nat, vAddr: seq<Address>) returns (s1: State)
    requires RandOk(s) && n < |s.vRandom| && |vAddr| < limit
    ensures var i := Drawn(s, draws, n);
            n <= i < |s.vRandom| && s1 == SwapRandom(s, n, i)
    ensures RandOk(s1) && |s1.vRandom| == |s.vRandom| && s1.vRandom[n] in s1.mapInfo && Shuffled(s, s1)
    ensures Gather(s, now, draws, limit, n, vAddr) == Gather(s1, now, draws, limit, n + 1, Collect(s1, now, n, vAddr))
  {
    var i := Drawn(s, draws, n);
    SwapRandOk(s, n, i);
    SwapMoves(s, n, i);
    s1 := SwapRandom(s, n, i);
  }

  /** Consistency is kept. */
  lemma {:induction false} GatherKeeps(c: Config, s: State, now: int, draws: nat -> nat, limit: nat, n: nat, vAddr: seq<Address>)
    returns (s': State)
    requires Indexed(c, s)
    ensures s' == Gather(s, now, draws, limit, n, vAddr).0
    ensures Indexed(c, s')
    decreases |s.vRandom| - n
  {
    hide Drawn, Collect, SwapRandom, RandOk, TriedOk, NewOk, RefOk;
    s' := s;
    if n < |s.vRandom| && |vAddr| < limit {
      var s1 := GatherNext(s, now, draws, limit, n, vAddr);
      SwapKeeps(c, s, n, Drawn(s, draws, n), {}, 0);
      s' := GatherKeeps(c, s1, now, draws, limit, n + 1, Collect(s1, now, n, vAddr));
    }
  }

  /** Only the order of vRandom, and the positions that mirror it, differ. */
  ghost predicate Shuffled(s: State, s': State) {
    s' == s.(mapInfo := s'.mapInfo, vRandom := s'.vRandom) && SameButPos(s.mapInfo, s'.mapInfo)
  }

  lemma ShuffledNot(s: State)
    ensures Shuffled(s, s)
  {
  }

  lemma ShuffledTwice(s: State, s1: State, s2: State)
    requires Shuffled(s, s1) && Shuffled(s1, s2)
    ensures Shuffled(s, s2)
  {
  }

  lemma {:induction false} GatherLeaves(s: State, now: int, draws: nat -> nat, limit: nat, n: nat, vAddr: seq<Address>)
    requires RandOk(s)
    ensures Shuffled(s, Gather(s, now, draws, limit, n, vAddr).0)
    decreases |s.vRandom| - n
  {
    hide Drawn, Collect, SwapRandom, Shuffled;
    ShuffledNot(s);
    if n < |s.vRandom| && |vAddr| < limit {
      var s1 := GatherNext(s, now, draws, limit, n, vAddr);
      GatherLeaves(s1, now, draws, limit, n + 1, Collect(s1, now, n, vAddr));
      ShuffledTwice(s, s1, Gather(s, now, draws, limit, n, vAddr).0);
    }
  }

  /** The entry with id `id` is good, has address `a`, and lies before position `n`. */
  ghost predicate GoodBefore(s: State, now: int, n: nat, id: int, a: Address) {
    id in s.mapInfo && s.mapInfo[id].addr == a && !IsTerrible(s.mapInfo[id], now) && s.mapInfo[id].nRandomPos < n
  }

  /** `vAddr` are good addresses of the distinct entries `ids`, all of them before position `n`. */
  ghost predicate Gathered(s: State, now: int, n: nat, ids: seq<int>, vAddr: seq<Address>) {
    && |ids| == |vAddr|
    && (forall k :: 0 <= k < |ids| ==> GoodBefore(s, now, n, ids[k], vAddr[k]))
    && (forall j, k :: 0 <= j < k < |ids| ==> ids[j] != ids[k])
  }

  /** Every good entry before position `n` is among `ids`. */
  ghost predicate NoneMissed(s: State, now: int, n: nat, ids: seq<int>) {
    forall id :: id in s.mapInfo && s.mapInfo[id].nRandomPos < n && !IsTerrible(s.mapInfo[id], now) ==> id in ids
  }

  /** One step of the shuffle moves nothing that lies before `n`. */
  lemma GatherStep(s: State, now: int, n: nat, i: nat, ids: seq<int>, vAddr: seq<Address>) returns (ids': seq<int>)
    requires RandOk(s) && n <= i < |s.vRandom| && Gathered(s, now, n, ids, vAddr) && NoneMissed(s, now, n, ids)
    ensures var s1 := SwapRandom(s, n, i);
            && n < |s1.vRandom| && s1.vRandom[n] in s1.mapInfo && Gathered(s1, now, n + 1, ids', Collect(s1, now, n, vAddr))
            && NoneMissed(s1, now, n + 1, ids')
  {
    hide IsTerrible, SwapRandom, RandOk, Gathered, NoneMissed, Collect;
    PlaceHolds(s, n);
    PlaceHolds(s, i);
    var s1 := SwapRandom(s, n, i);
    SwapRandOk(s, n, i);
    SwapMoves(s, n, i);
    PlaceHolds(s1, n);
    var id := s1.vRandom[n];
    ids' := if IsTerrible(s1.mapInfo[id], now) then ids else ids + [id];
    GatheredStep(s, s1, now, n, i, ids, vAddr);
    NoneMissedStep(s, s1, now, n, i, ids);
  }

  lemma GatheredStep(s: State, s1: State, now: int, n: nat, i: nat, ids: seq<int>, vAddr: seq<Address>)
    requires RandOk(s) && n <= i < |s.vRandom| && Gathered(s, now, n, ids, vAddr) && s1 == SwapRandom(s, n, i)
    requires RandOk(s1) && n < |s1.vRandom| && s1.vRandom[n] in s1.mapInfo
    ensures var id := s1.vRandom[n];
            var ids' := if IsTerrible(s1.mapInfo[id], now) then ids else ids + [id];
            Gathered(s1, now, n + 1, ids', Collect(s1, now, n, vAddr))
  {
    hide IsTerrible, SwapRandom;
    forall k | 0 <= k < |ids| ensures GoodBefore(s1, now, n, ids[k], vAddr[k]) && ids[k] != s1.vRandom[n] {
      SwapSpares(s, n, i, ids[k]);
    }
  }

  lemma NoneMissedStep(s: State, s1: State, now: int, n: nat, i: nat, ids: seq<int>)
    requires RandOk(s) && n <= i < |s.vRandom| && NoneMissed(s, now, n, ids) && s1 == SwapRandom(s, n, i)
    requires n < |s1.vRandom| && s1.vRandom[n] in s1.mapInfo
    ensures var id := s1.vRandom[n];
            NoneMissed(s1, now, n + 1, if IsTerrible(s1.mapInfo[id], now) then ids else ids + [id])
  {
    hide IsTerrible, SwapRandom;
    var id := s1.vRandom[n];
    var ids' := if IsTerrible(s1.mapInfo[id], now) then ids else ids + [id];
    forall x | x in s1.mapInfo && s1.mapInfo[x].nRandomPos < n + 1 && !IsTerrible(s1.mapInfo[x], now) ensures x in ids' {
      SwapReveals(s, n, i, x);
    }
  }

  lemma SwapReveals(s: State, n: nat, i: nat, id: int)
    requires RandOk(s) && n <= i < |s.vRandom| && id in SwapRandom(s, n, i).mapInfo
    requires SwapRandom(s, n, i).mapInfo[id].nRandomPos <= n
    ensures |SwapRandom(s, n, i).vRandom| == |s.vRandom|
    ensures if SwapRandom(s, n, i).mapInfo[id].nRandomPos == n then SwapRandom(s, n, i).vRandom[n] == id
            else id in s.mapInfo && SwapRandom(s, n, i).mapInfo[id] == s.mapInfo[id]
  {
    SwapRandOk(s, n, i);
    SwapMoves(s, n, i);
  }

  lemma SwapSpares(s: State, n: nat, i: nat, id: int)
    requires RandOk(s) && n <= i < |s.vRandom| && id in s.mapInfo && s.mapInfo[id].nRandomPos < n
    ensures id in SwapRandom(s, n, i).mapInfo && SwapRandom(s, n, i).mapInfo[id] == s.mapInfo[id]
    ensures SwapRandom(s, n, i).vRandom[n] != id
  {
  }

  /** What GetAddr returns are good addresses of distinct entries, no more than the limit; below the limit, all of them. */
  lemma {:induction false} GatherFinds(s: State, now: int, draws: nat -> nat, limit: nat, n: nat, ids: seq<int>, vAddr: seq<Address>)
    returns (found: seq<int>)
    requires RandOk(s) && Gathered(s, now, n, ids, vAddr) && |vAddr| <= limit && n <= |s.vRandom| && NoneMissed(s, now, n, ids)
    ensures var (s', r) := Gather(s, now, draws, limit, n, vAddr);
            && |r| <= limit && Gathered(s', now, |s.vRandom|, found, r)
            && (|r| < limit ==> forall id :: id in s'.mapInfo && !IsTerrible(s'.mapInfo[id], now) ==> id in found)
    decreases |s.vRandom| - n
  {
    hide RandOk, Gathered, NoneMissed, SwapRandom, Collect, Drawn;
    found := ids;
    if n < |s.vRandom| && |vAddr| < limit {
      var s1 := GatherNext(s, now, draws, limit, n, vAddr);
      var ids' := GatherStep(s, now, n, Drawn(s, draws, n), ids, vAddr);
      CollectsOne(s1, now, n, vAddr);
      found := GatherFinds(s1, now, draws, limit, n + 1, ids', Collect(s1, now, n, vAddr));
    } else {
      GatheredAll(s, now, n, ids, vAddr, limit);
    }
  }

  lemma CollectsOne(s: State, now: int, n: nat, vAddr: seq<Address>)
    requires n < |s.vRandom| && s.vRandom[n] in s.mapInfo
    ensures |Collect(s, now, n, vAddr)| <= |vAddr| + 1
  {
  }

  lemma GatheredAll(s: State, now: int, n: nat, ids: seq<int>, vAddr: seq<Address>, limit: nat)
    requires RandOk(s) && Gathered(s, now, n, ids, vAddr) && NoneMissed(s, now, n, ids) && n <= |s.vRandom|
    requires n == |s.vRandom| || |vAddr| >= limit
    ensures Gathered(s, now, |s.vRandom|, ids, vAddr)
    ensures |vAddr| < limit ==> forall id :: id in s.mapInfo && !IsTerrible(s.mapInfo[id], now) ==> id in ids
  {
    hide IsTerrible;
  }
}
