/**
 The stochastic address manager as a value: five redundant indexes over one set
 of known addresses, the operations that change them together, and the global
 consistency condition that all of them keep.  The tables hold only their
 occupied slots here; AddrManObject ties them to the arrays.

 Bucket and position hashes are parameters (they depend on a secret key, which
 only Clear and reading from disk change); random draws and times are arguments.
 */
module AddrMan {

  type NetAddr = nat

  /** A bucket and a position in it. */
  type Slot = (int, int)

  datatype Service = Service(ip: NetAddr, port: nat)

  datatype Address = Address(service: Service, nTime: int, nServices: set<nat>)

  datatype AddrInfo = AddrInfo(
    addr: Address,
    source: NetAddr,
    nLastTry: int,
    nLastCountAttempt: int,
    nLastSuccess: int,
    nAttempts: int,
    nRefCount: int,
    fInTried: bool,
    nRandomPos: int)
  {
    function Ip(): NetAddr { addr.service.ip }
  }

  /** The sizes of the tables and the keyed hashes, already reduced modulo those sizes. */
  datatype Config = Config(
    nNewBuckets: nat,
    nTriedBuckets: nat,
    nBucketSize: nat,
    triedBucket: Service -> int,
    newBucket: (Service, NetAddr) -> int,
    position: (Service, bool, int) -> int,
    routable: NetAddr -> bool,
    valid: NetAddr -> bool)

  ghost predicate Sized(c: Config) {
    && (forall svc :: 0 <= c.triedBucket(svc) < c.nTriedBuckets)
    && (forall svc, src :: 0 <= c.newBucket(svc, src) < c.nNewBuckets)
    && (forall svc, fNew, b :: 0 <= c.position(svc, fNew, b) < c.nBucketSize)
  }

  const NEW_BUCKETS_PER_ADDRESS := 8
  const HORIZON_DAYS := 30
  const RETRIES := 3
  const MAX_FAILURES := 10
  const MIN_FAIL_DAYS := 7
  const REPLACEMENT_HOURS := 4
  const GETADDR_MAX_PCT := 23
  const GETADDR_MAX := 2500
  const SET_TRIED_COLLISION_SIZE := 10
  const TEST_WINDOW := 40 * 60

  // ------------------------------------------------------------------
  // Entries and their places
  // ------------------------------------------------------------------

  function TriedSlot(c: Config, svc: Service): Slot {
    var b := c.triedBucket(svc);
    (b, c.position(svc, false, b))
  }

  /** The only slot of new bucket `b` where this address may be. */
  function NewSlotIn(c: Config, svc: Service, b: int): Slot { (b, c.position(svc, true, b)) }

  function NewSlot(c: Config, svc: Service, source: NetAddr): Slot { NewSlotIn(c, svc, c.newBucket(svc, source)) }

  predicate IsTerrible(info: AddrInfo, now: int) {
    if info.nLastTry != 0 && info.nLastTry >= now - 60 then false
    else
      || info.addr.nTime > now + 10 * 60
      || info.addr.nTime == 0 || now - info.addr.nTime > HORIZON_DAYS * 24 * 60 * 60
      || (info.nLastSuccess == 0 && info.nAttempts >= RETRIES)
      || (now - info.nLastSuccess > MIN_FAIL_DAYS * 24 * 60 * 60 && info.nAttempts >= MAX_FAILURES)
  }

  // ------------------------------------------------------------------
  // The state and its consistency
  // ------------------------------------------------------------------

  datatype State = State(
    nIdCount: int,
    mapInfo: map<int, AddrInfo>,
    mapAddr: map<NetAddr, int>,
    vRandom: seq<int>,
    nTried: int,
    tried: map<Slot, int>,
    nNew: int,
    new_: map<Slot, int>,
    nLastGood: int,
    collisions: set<int>)

  /** A new manager. */
  function Empty(): State { State(0, map[], map[], [], 0, map[], 0, map[], 1, {}) }

  ghost function SlotsOf(t: map<Slot, int>, id: int): set<Slot> { set u | u in t && t[u] == id }

  ghost function TriedIds(m: map<int, AddrInfo>): set<int> { set n | n in m && m[n].fInTried }

  ghost function NewIds(m: map<int, AddrInfo>, limbo: set<int>): set<int> {
    set n | n in m && !m[n].fInTried && n !in limbo
  }

  ghost predicate IdsOk(s: State) { s.nIdCount >= 0 && forall n :: n in s.mapInfo ==> 0 <= n < s.nIdCount }

  /** mapAddr and mapInfo are inverse to each other. */
  ghost predicate AddrOk(s: State) {
    && (forall n {:trigger n in s.mapInfo} :: n in s.mapInfo ==>
          s.mapInfo[n].Ip() in s.mapAddr && s.mapAddr[s.mapInfo[n].Ip()] == n)
    && (forall a {:trigger a in s.mapAddr} :: a in s.mapAddr ==>
          s.mapAddr[a] in s.mapInfo && s.mapInfo[s.mapAddr[a]].Ip() == a)
  }

  /** vRandom and the nRandomPos fields are inverse to each other. */
  ghost predicate RandOk(s: State) {
    && (forall n {:trigger n in s.mapInfo} :: n in s.mapInfo ==>
          0 <= s.mapInfo[n].nRandomPos < |s.vRandom| && s.vRandom[s.mapInfo[n].nRandomPos] == n)
    && (forall i :: 0 <= i < |s.vRandom| ==> s.vRandom[i] in s.mapInfo && s.mapInfo[s.vRandom[i]].nRandomPos == i)
  }

  /** The tried table holds exactly the tried entries, each in its one slot. */
  ghost predicate TriedOk(c: Config, s: State) {
    && (forall u {:trigger u in s.tried} :: u in s.tried ==>
          && s.tried[u] in s.mapInfo && s.mapInfo[s.tried[u]].fInTried
          && u == TriedSlot(c, s.mapInfo[s.tried[u]].addr.service))
    && (forall n {:trigger n in s.mapInfo} :: n in s.mapInfo && s.mapInfo[n].fInTried ==>
          var u := TriedSlot(c, s.mapInfo[n].addr.service);
          u in s.tried && s.tried[u] == n)
  }

  /** The new table holds entries that are not tried, where their hashes allow. */
  ghost predicate NewOk(c: Config, s: State) {
    forall u {:trigger u in s.new_} :: u in s.new_ ==>
      && 0 <= u.0 < c.nNewBuckets
      && s.new_[u] in s.mapInfo && !s.mapInfo[s.new_[u]].fInTried
      && u == NewSlotIn(c, s.mapInfo[s.new_[u]].addr.service, u.0)
  }

  /** Reference counts are exact.  `limbo` are the entries that are, for the moment, in neither table. */
  ghost predicate RefOk(s: State, limbo: set<int>) {
    && (forall n :: n in limbo ==> n in s.mapInfo && !s.mapInfo[n].fInTried)
    && (forall n {:trigger n in s.mapInfo} :: n in s.mapInfo ==>
          && s.mapInfo[n].nRefCount == |SlotsOf(s.new_, n)|
          && (s.mapInfo[n].fInTried || n in limbo ==> s.mapInfo[n].nRefCount == 0)
          && (!s.mapInfo[n].fInTried && n !in limbo ==> 1 <= s.mapInfo[n].nRefCount <= NEW_BUCKETS_PER_ADDRESS))
  }

  /** The counters are exact, up to `extra` limbo entries that nNew still counts. */
  ghost predicate CountOk(s: State, limbo: set<int>, extra: int) {
    s.nTried == |TriedIds(s.mapInfo)| && s.nNew == |NewIds(s.mapInfo, limbo)| + extra
  }

  predicate TimesFine(info: AddrInfo) {
    info.nLastTry >= 0 && info.nLastSuccess >= 0 && (info.fInTried ==> info.nLastSuccess > 0)
  }

  ghost predicate TimeOk(s: State) { forall n :: n in s.mapInfo ==> TimesFine(s.mapInfo[n]) }

  ghost predicate Named(s: State) { IdsOk(s) && AddrOk(s) }

  /** The indexes in the middle of an operation. */
  ghost predicate Mid(c: Config, s: State, limbo: set<int>, extra: int) {
    Sized(c) && Named(s) && RandOk(s) && TriedOk(c, s) && NewOk(c, s) && RefOk(s, limbo) && CountOk(s, limbo, extra)
  }

  /** Every index agrees with every other.  All operations keep this, whatever times they are given. */
  ghost predicate Indexed(c: Config, s: State) { Mid(c, s, {}, 0) }

  /** The condition that the debug check of the address manager stands for: the times are fine as well. */
  ghost predicate Consistent(c: Config, s: State) { Indexed(c, s) && TimeOk(s) }

  // ------------------------------------------------------------------
  // The building blocks
  // ------------------------------------------------------------------

  function NewInfo(addr: Address, source: NetAddr): AddrInfo { AddrInfo(addr, source, 0, 0, 0, 0, 0, false, -1) }

  function Create(s: State, addr: Address, source: NetAddr): State {
    var info := NewInfo(addr, source).(nRandomPos := |s.vRandom|);
    s.(nIdCount := s.nIdCount + 1,
       mapInfo := s.mapInfo[s.nIdCount := info],
       mapAddr := s.mapAddr[addr.service.ip := s.nIdCount],
       vRandom := s.vRandom + [s.nIdCount])
  }

  function SwapRandom(s: State, i: int, j: int): State
    requires 0 <= i < |s.vRandom| && 0 <= j < |s.vRandom|
    requires s.vRandom[i] in s.mapInfo && s.vRandom[j] in s.mapInfo
  {
    if i == j then s
    else
      var a, b := s.vRandom[i], s.vRandom[j];
      var m := s.mapInfo[a := s.mapInfo[a].(nRandomPos := j)];
      s.(mapInfo := m[b := m[b].(nRandomPos := i)], vRandom := s.vRandom[i := b][j := a])
  }

  function Delete(s: State, id: int): State
    requires id in s.mapInfo && RandOk(s)
  {
    var last := |s.vRandom| - 1;
    var s1 := SwapRandom(s, s.mapInfo[id].nRandomPos, last);
    s1.(vRandom := s1.vRandom[..last],
        mapAddr := s1.mapAddr - {s.mapInfo[id].Ip()},
        mapInfo := s1.mapInfo - {id},
        nNew := s1.nNew - 1)
  }

  function PutInfo(s: State, id: int, info: AddrInfo): State { s.(mapInfo := s.mapInfo[id := info]) }

  /** The table with `id` in slot `u`; -1 marks a free slot. */
  function WithSlot(t: map<Slot, int>, u: Slot, id: int): map<Slot, int> { if id == -1 then t - {u} else t[u := id] }

  /** Empties tried slot `u`; its entry is then in neither table. */
  function LeaveTried(s: State, u: Slot): State
    requires u in s.tried && s.tried[u] in s.mapInfo
  {
    PutInfo(s, s.tried[u], s.mapInfo[s.tried[u]].(fInTried := false)).(tried := s.tried - {u}, nTried := s.nTried - 1)
  }

  function EnterTried(s: State, u: Slot, id: int): State
    requires id in s.mapInfo
  {
    PutInfo(s, id, s.mapInfo[id].(fInTried := true)).(tried := s.tried[u := id], nTried := s.nTried + 1)
  }

  /** Takes entry `id` out of every new slot that its hashes allow. */
  function LeaveNew(c: Config, s: State, id: int): State
    requires id in s.mapInfo
  {
    var info := s.mapInfo[id];
    var mine := set u | u in s.new_ && s.new_[u] == id && u == NewSlotIn(c, info.addr.service, u.0);
    PutInfo(s, id, info.(nRefCount := info.nRefCount - |mine|)).(new_ := s.new_ - mine, nNew := s.nNew - 1)
  }

  /** Takes the entry out of new slot `u`. */
  function DropSlot(s: State, u: Slot): State
    requires u in s.new_ && s.new_[u] in s.mapInfo
  {
    var id := s.new_[u];
    PutInfo(s, id, s.mapInfo[id].(nRefCount := s.mapInfo[id].nRefCount - 1)).(new_ := s.new_ - {u})
  }

  /** Enters `id` into the free new slot `u`. */
  function TakeSlot(s: State, u: Slot, id: int): State
    requires id in s.mapInfo
  {
    PutInfo(s, id, s.mapInfo[id].(nRefCount := s.mapInfo[id].nRefCount + 1)).(new_ := s.new_[u := id])
  }

  function ClearNew(s: State, u: Slot): State
    requires RandOk(s) && (u in s.new_ ==> s.new_[u] in s.mapInfo)
  {
    if u !in s.new_ then s
    else
      var s1 := DropSlot(s, u);
      if s1.mapInfo[s.new_[u]].nRefCount == 0 then Delete(s1, s.new_[u]) else s1
  }

  // ------------------------------------------------------------------
  // What a change must leave alone for each part of the consistency
  // ------------------------------------------------------------------

  lemma NamedFrame(s: State, s': State)
    requires Named(s) && s'.nIdCount == s.nIdCount && s'.mapAddr == s.mapAddr && s'.mapInfo.Keys == s.mapInfo.Keys
    requires forall n :: n in s'.mapInfo ==> s'.mapInfo[n].Ip() == s.mapInfo[n].Ip()
    ensures Named(s')
  {
  }

  lemma RandFrame(s: State, s': State)
    requires RandOk(s) && s'.vRandom == s.vRandom && s'.mapInfo.Keys == s.mapInfo.Keys
    requires forall n :: n in s'.mapInfo ==> s'.mapInfo[n].nRandomPos == s.mapInfo[n].nRandomPos
    ensures RandOk(s')
  {
  }

  lemma TriedFrame(c: Config, s: State, s': State)
    requires TriedOk(c, s) && s'.tried == s.tried && s'.mapInfo.Keys == s.mapInfo.Keys
    requires forall n :: n in s'.mapInfo ==> s'.mapInfo[n].fInTried == s.mapInfo[n].fInTried
    requires forall n :: n in s'.mapInfo ==> s'.mapInfo[n].addr.service == s.mapInfo[n].addr.service
    ensures TriedOk(c, s')
  {
    forall u | u in s'.tried
      ensures var n := s'.tried[u];
              n in s'.mapInfo && s'.mapInfo[n].fInTried && u == TriedSlot(c, s'.mapInfo[n].addr.service)
    {
      var n := s.tried[u];
      assert n in s.mapInfo && s.mapInfo[n].fInTried;
    }
  }

  lemma NewFrame(c: Config, s: State, s': State)
    requires NewOk(c, s) && s'.new_ == s.new_ && s'.mapInfo.Keys == s.mapInfo.Keys
    requires forall n :: n in s'.mapInfo ==> s'.mapInfo[n].fInTried == s.mapInfo[n].fInTried
    requires forall n :: n in s'.mapInfo ==> s'.mapInfo[n].addr.service == s.mapInfo[n].addr.service
    ensures NewOk(c, s')
  {
    forall u | u in s'.new_
      ensures var n := s'.new_[u];
              && 0 <= u.0 < c.nNewBuckets
              && n in s'.mapInfo && !s'.mapInfo[n].fInTried && u == NewSlotIn(c, s'.mapInfo[n].addr.service, u.0)
    {
      var n := s.new_[u];
      assert n in s.mapInfo && !s.mapInfo[n].fInTried;
    }
  }

  lemma RefFrame(s: State, s': State, limbo: set<int>)
    requires RefOk(s, limbo) && s'.new_ == s.new_ && s'.mapInfo.Keys == s.mapInfo.Keys
    requires forall n :: n in s'.mapInfo ==> s'.mapInfo[n].fInTried == s.mapInfo[n].fInTried
    requires forall n :: n in s'.mapInfo ==> s'.mapInfo[n].nRefCount == s.mapInfo[n].nRefCount
    ensures RefOk(s', limbo)
  {
  }

  lemma CountFrame(s: State, s': State, limbo: set<int>, extra: int)
    requires CountOk(s, limbo, extra) && s'.nTried == s.nTried && s'.nNew == s.nNew && s'.mapInfo.Keys == s.mapInfo.Keys
    requires forall n :: n in s'.mapInfo ==> s'.mapInfo[n].fInTried == s.mapInfo[n].fInTried
    ensures CountOk(s', limbo, extra)
  {
    SameIds(s.mapInfo, s'.mapInfo, limbo);
  }

  lemma SameIds(m: map<int, AddrInfo>, m': map<int, AddrInfo>, limbo: set<int>)
    requires m'.Keys == m.Keys && forall n :: n in m' ==> m'[n].fInTried == m[n].fInTried
    ensures TriedIds(m') == TriedIds(m) && NewIds(m', limbo) == NewIds(m, limbo)
  {
    forall n ensures n in TriedIds(m') <==> n in TriedIds(m) { }
    forall n ensures n in NewIds(m', limbo) <==> n in NewIds(m, limbo) { }
  }

  // ------------------------------------------------------------------
  // The building blocks keep the consistency
  // ------------------------------------------------------------------

  /** Everything but nRandomPos. */
  predicate SameCore(a: AddrInfo, b: AddrInfo) {
    && a.addr == b.addr && a.source == b.source
    && a.nLastTry == b.nLastTry && a.nLastCountAttempt == b.nLastCountAttempt && a.nLastSuccess == b.nLastSuccess
    && a.nAttempts == b.nAttempts && a.nRefCount == b.nRefCount && a.fInTried == b.fInTried
  }

  /** The same entries, but for their places in vRandom. */
  ghost predicate SameButPos(m: map<int, AddrInfo>, m': map<int, AddrInfo>) {
    m'.Keys == m.Keys && forall n :: n in m' ==> SameCore(m[n], m'[n])
  }

  lemma SwapRandOk(s: State, i: int, j: int)
    requires RandOk(s) && 0 <= i < |s.vRandom| && 0 <= j < |s.vRandom|
    ensures RandOk(SwapRandom(s, i, j)) && SameButPos(s.mapInfo, SwapRandom(s, i, j).mapInfo)
  {
    var s' := SwapRandom(s, i, j);
    var a, b := s.vRandom[i], s.vRandom[j];
    if i != j {
      assert a != b;
      forall n | n in s'.mapInfo
        ensures 0 <= s'.mapInfo[n].nRandomPos < |s'.vRandom| && s'.vRandom[s'.mapInfo[n].nRandomPos] == n
      {
        if n != a && n != b {
          assert s'.mapInfo[n] == s.mapInfo[n];
        }
      }
    }
  }

  lemma SwapKeeps(c: Config, s: State, i: int, j: int, limbo: set<int>, extra: int)
    requires Mid(c, s, limbo, extra) && 0 <= i < |s.vRandom| && 0 <= j < |s.vRandom|
    ensures Mid(c, SwapRandom(s, i, j), limbo, extra)
    ensures SameButPos(s.mapInfo, SwapRandom(s, i, j).mapInfo)
  {
    SwapRandOk(s, i, j);
    PlacesIrrelevant(c, s, SwapRandom(s, i, j), limbo, extra);
  }

  lemma PlacesIrrelevant(c: Config, s: State, s': State, limbo: set<int>, extra: int)
    requires Mid(c, s, limbo, extra) && RandOk(s') && SameButPos(s.mapInfo, s'.mapInfo)
    requires s' == s.(mapInfo := s'.mapInfo, vRandom := s'.vRandom)
    ensures Mid(c, s', limbo, extra)
  {
    hide RandOk, TriedOk, NewOk, RefOk, CountOk, Named;
    NamedFrame(s, s');
    TriedFrame(c, s, s');
    NewFrame(c, s, s');
    RefFrame(s, s', limbo);
    CountFrame(s, s', limbo, extra);
  }

  lemma CreateKeeps(c: Config, s: State, addr: Address, source: NetAddr, limbo: set<int>, extra: int)
    requires Mid(c, s, limbo, extra) && addr.service.ip !in s.mapAddr
    ensures Mid(c, Create(s, addr, source), limbo + {s.nIdCount}, extra)
  {
    CreateRandOk(s, addr, source);
    CreateNamed(s, addr, source);
    CreateTried(c, s, addr, source);
    CreateNew(c, s, addr, source, limbo, extra);
  }

  lemma CreateRandOk(s: State, addr: Address, source: NetAddr)
    requires RandOk(s) && IdsOk(s)
    ensures RandOk(Create(s, addr, source))
  {
  }

  lemma CreateNamed(s: State, addr: Address, source: NetAddr)
    requires Named(s) && addr.service.ip !in s.mapAddr
    ensures Named(Create(s, addr, source))
  {
  }

  lemma CreateTried(c: Config, s: State, addr: Address, source: NetAddr)
    requires TriedOk(c, s) && IdsOk(s)
    ensures TriedOk(c, Create(s, addr, source))
  {
  }

  lemma CreateNew(c: Config, s: State, addr: Address, source: NetAddr, limbo: set<int>, extra: int)
    requires NewOk(c, s) && RefOk(s, limbo) && CountOk(s, limbo, extra) && IdsOk(s)
    ensures NewOk(c, Create(s, addr, source))
    ensures var s', limbo' := Create(s, addr, source), limbo + {s.nIdCount}; RefOk(s', limbo') && CountOk(s', limbo', extra)
  {
    var s', id := Create(s, addr, source), s.nIdCount;
    assert SlotsOf(s.new_, id) == {};
    assert TriedIds(s'.mapInfo) == TriedIds(s.mapInfo);
    assert NewIds(s'.mapInfo, limbo + {id}) == NewIds(s.mapInfo, limbo);
  }

  function Pop(s: State, id: int): State
    requires id in s.mapInfo && |s.vRandom| > 0
  {
    s.(vRandom := s.vRandom[..|s.vRandom| - 1],
       mapAddr := s.mapAddr - {s.mapInfo[id].Ip()},
       mapInfo := s.mapInfo - {id},
       nNew := s.nNew - 1)
  }

  lemma PopRandOk(s: State, id: int)
    requires RandOk(s) && id in s.mapInfo && s.mapInfo[id].nRandomPos == |s.vRandom| - 1
    ensures RandOk(Pop(s, id))
  {
  }

  lemma PopNamed(s: State, id: int)
    requires Named(s) && id in s.mapInfo && |s.vRandom| > 0
    ensures Named(Pop(s, id))
  {
  }

  lemma PopTried(c: Config, s: State, id: int)
    requires TriedOk(c, s) && id in s.mapInfo && !s.mapInfo[id].fInTried && |s.vRandom| > 0
    ensures TriedOk(c, Pop(s, id))
  {
  }

  /** An entry without references is in no new slot. */
  lemma NoSlots(s: State, id: int)
    requires |SlotsOf(s.new_, id)| == 0
    ensures forall u :: u in s.new_ ==> s.new_[u] != id
  {
    forall u | u in s.new_ ensures s.new_[u] != id {
      assert u !in SlotsOf(s.new_, id);
    }
  }

  lemma PopNew(c: Config, s: State, id: int, limbo: set<int>, extra: int)
    requires NewOk(c, s) && RefOk(s, limbo) && CountOk(s, limbo, extra) && id in limbo && |s.vRandom| > 0
    ensures NewOk(c, Pop(s, id))
    ensures RefOk(Pop(s, id), limbo - {id}) && CountOk(Pop(s, id), limbo - {id}, extra - 1)
  {
    var s' := Pop(s, id);
    NoSlots(s, id);
    assert TriedIds(s'.mapInfo) == TriedIds(s.mapInfo);
    assert NewIds(s'.mapInfo, limbo - {id}) == NewIds(s.mapInfo, limbo);
  }

  /** Deleting an entry that is in neither table leaves every other entry as it was. */
  lemma DeleteKeeps(c: Config, s: State, id: int, limbo: set<int>, extra: int)
    requires Mid(c, s, limbo, extra) && id in limbo
    ensures Mid(c, Delete(s, id), limbo - {id}, extra - 1)
    ensures SameButPos(s.mapInfo - {id}, Delete(s, id).mapInfo)
  {
    LimboPlace(c, s, id, limbo, extra);
    DeleteParts(c, s, id, limbo, extra, |s.vRandom| - 1);
  }

  lemma LimboPlace(c: Config, s: State, id: int, limbo: set<int>, extra: int)
    requires Mid(c, s, limbo, extra) && id in limbo
    ensures RandOk(s) && id in s.mapInfo && 0 <= s.mapInfo[id].nRandomPos < |s.vRandom| && s.vRandom[s.mapInfo[id].nRandomPos] == id
  {
  }

  lemma DeleteParts(c: Config, s: State, id: int, limbo: set<int>, extra: int, last: int)
    requires Mid(c, s, limbo, extra) && id in limbo && RandOk(s) && id in s.mapInfo && last == |s.vRandom| - 1
    requires 0 <= s.mapInfo[id].nRandomPos < |s.vRandom| && s.vRandom[s.mapInfo[id].nRandomPos] == id
    ensures Mid(c, Delete(s, id), limbo - {id}, extra - 1)
    ensures SameButPos(s.mapInfo - {id}, Delete(s, id).mapInfo)
  {
    hide Mid, RandOk, SameButPos;
    var i := s.mapInfo[id].nRandomPos;
    PlaceHolds(s, last);
    SwapKeeps(c, s, i, last, limbo, extra);
    SwapMoves(s, i, last);
    var s1 := SwapRandom(s, i, last);
    SameIp(s.mapInfo, s1.mapInfo, id);
    PopKeeps(c, s1, id, limbo, extra);
    EraseSame(s.mapInfo, s1.mapInfo, id);
    DeleteIsPop(s, id, s1);
  }

  lemma PlaceHolds(s: State, i: int)
    requires RandOk(s) && 0 <= i < |s.vRandom|
    ensures s.vRandom[i] in s.mapInfo
  {
  }

  lemma SameIp(m: map<int, AddrInfo>, m': map<int, AddrInfo>, id: int)
    requires SameButPos(m, m') && id in m
    ensures id in m' && m'[id].Ip() == m[id].Ip()
  {
  }

  lemma DeleteIsPop(s: State, id: int, s1: State)
    requires RandOk(s) && id in s.mapInfo && s1 == SwapRandom(s, s.mapInfo[id].nRandomPos, |s.vRandom| - 1)
    requires id in s1.mapInfo && s1.mapInfo[id].Ip() == s.mapInfo[id].Ip() && |s1.vRandom| == |s.vRandom|
    ensures Delete(s, id) == Pop(s1, id)
  {
    hide SwapRandom;
  }

  lemma EraseSame(m: map<int, AddrInfo>, m': map<int, AddrInfo>, id: int)
    requires SameButPos(m, m')
    ensures SameButPos(m - {id}, m' - {id})
  {
  }

  lemma SwapMoves(s: State, i: int, j: int)
    requires RandOk(s) && 0 <= i < |s.vRandom| && 0 <= j < |s.vRandom|
    ensures s.vRandom[i] in SwapRandom(s, i, j).mapInfo
    ensures SwapRandom(s, i, j).mapInfo[s.vRandom[i]].nRandomPos == j
    ensures |SwapRandom(s, i, j).vRandom| == |s.vRandom|
    ensures SwapRandom(s, i, j) == s.(mapInfo := SwapRandom(s, i, j).mapInfo, vRandom := SwapRandom(s, i, j).vRandom)
  {
  }

  lemma PopKeeps(c: Config, s: State, id: int, limbo: set<int>, extra: int)
    requires Mid(c, s, limbo, extra) && id in limbo && s.mapInfo[id].nRandomPos == |s.vRandom| - 1
    ensures Mid(c, Pop(s, id), limbo - {id}, extra - 1)
  {
    PopRandOk(s, id);
    PopNamed(s, id);
    PopTried(c, s, id);
    PopNew(c, s, id, limbo, extra);
  }

  /** Changing one entry's statistics. */
  lemma TouchKeeps(c: Config, s: State, id: int, info: AddrInfo, limbo: set<int>, extra: int)
    requires Mid(c, s, limbo, extra) && id in s.mapInfo
    requires var old_ := s.mapInfo[id];
             && info.addr.service == old_.addr.service && info.source == old_.source && info.nRandomPos == old_.nRandomPos
             && info.fInTried == old_.fInTried && info.nRefCount == old_.nRefCount
    ensures Mid(c, PutInfo(s, id, info), limbo, extra)
  {
    hide RandOk, TriedOk, NewOk, RefOk, CountOk, Named;
    var s' := PutInfo(s, id, info);
    NamedFrame(s, s');
    RandFrame(s, s');
    TriedFrame(c, s, s');
    NewFrame(c, s, s');
    RefFrame(s, s', limbo);
    CountFrame(s, s', limbo, extra);
  }

  lemma SlotRemoved(t: map<Slot, int>, u: Slot)
    requires u in t
    ensures SlotsOf(t - {u}, t[u]) == SlotsOf(t, t[u]) - {u} && u in SlotsOf(t, t[u])
    ensures forall n :: n != t[u] ==> SlotsOf(t - {u}, n) == SlotsOf(t, n)
  {
  }

  lemma SlotAdded(t: map<Slot, int>, u: Slot, id: int)
    requires u !in t
    ensures SlotsOf(t[u := id], id) == SlotsOf(t, id) + {u} && u !in SlotsOf(t, id)
    ensures forall n :: n != id ==> SlotsOf(t[u := id], n) == SlotsOf(t, n)
  {
  }

  /** Emptying a new slot; the entry that lost its last reference is then in limbo but still counted. */
  lemma DropKeeps(c: Config, s: State, u: Slot, limbo: set<int>, extra: int)
    requires Mid(c, s, limbo, extra) && u in s.new_
    ensures var id, s' := s.new_[u], DropSlot(s, u);
            if s'.mapInfo[id].nRefCount == 0 then Mid(c, s', limbo + {id}, extra + 1) else Mid(c, s', limbo, extra)
    ensures s.new_[u] !in limbo && s.mapInfo[s.new_[u]].nRefCount > 0
  {
    var id, s' := s.new_[u], DropSlot(s, u);
    SlotRemoved(s.new_, u);
    DropFrames(c, s, u);
    DropRefs(s, u, limbo, extra);
  }

  lemma DropFrames(c: Config, s: State, u: Slot)
    requires Named(s) && RandOk(s) && TriedOk(c, s) && NewOk(c, s) && u in s.new_
    ensures var s' := DropSlot(s, u); Named(s') && RandOk(s') && TriedOk(c, s') && NewOk(c, s')
  {
    var id, s' := s.new_[u], DropSlot(s, u);
    NamedFrame(s, s');
    RandFrame(s, s');
    TriedFrame(c, s, s');
    DropNew(c, s, u);
  }

  lemma DropNew(c: Config, s: State, u: Slot)
    requires NewOk(c, s) && u in s.new_
    ensures NewOk(c, DropSlot(s, u))
  {
  }

  lemma DropRefs(s: State, u: Slot, limbo: set<int>, extra: int)
    requires RefOk(s, limbo) && CountOk(s, limbo, extra) && u in s.new_ && s.new_[u] in s.mapInfo
    requires !s.mapInfo[s.new_[u]].fInTried
    ensures var id, s' := s.new_[u], DropSlot(s, u);
            && id !in limbo && s.mapInfo[id].nRefCount > 0
            && if s'.mapInfo[id].nRefCount == 0 then RefOk(s', limbo + {id}) && CountOk(s', limbo + {id}, extra + 1)
               else RefOk(s', limbo) && CountOk(s', limbo, extra)
  {
    hide SlotsOf, TriedIds;
    var id, s' := s.new_[u], DropSlot(s, u);
    SlotRemoved(s.new_, u);
    SameIds(s.mapInfo, s'.mapInfo, limbo);
    NewIdLeaves(s'.mapInfo, limbo, id);
  }

  lemma NewIdLeaves(m: map<int, AddrInfo>, limbo: set<int>, id: int)
    requires id in m && !m[id].fInTried
    ensures NewIds(m, limbo + {id}) == NewIds(m, limbo) - {id}
    ensures id !in limbo ==> id in NewIds(m, limbo)
    ensures id in limbo ==> NewIds(m, limbo - {id}) == NewIds(m, limbo) + {id} && id !in NewIds(m, limbo)
  {
  }

  lemma TakeKeeps(c: Config, s: State, u: Slot, id: int, limbo: set<int>, extra: int)
    requires Mid(c, s, limbo, extra) && id in s.mapInfo && !s.mapInfo[id].fInTried && u !in s.new_
    requires 0 <= u.0 < c.nNewBuckets && u == NewSlotIn(c, s.mapInfo[id].addr.service, u.0)
    requires s.mapInfo[id].nRefCount < NEW_BUCKETS_PER_ADDRESS
    ensures Mid(c, TakeSlot(s, u, id), limbo - {id}, if id in limbo then extra - 1 else extra)
  {
    hide RandOk, TriedOk, NewOk, RefOk, CountOk, Named, SlotsOf;
    var s' := TakeSlot(s, u, id);
    NamedFrame(s, s');
    RandFrame(s, s');
    TriedFrame(c, s, s');
    TakeNew(c, s, u, id);
    TakeRefs(s, u, id, limbo, extra);
  }

  lemma TakeNew(c: Config, s: State, u: Slot, id: int)
    requires NewOk(c, s) && id in s.mapInfo && !s.mapInfo[id].fInTried
    requires 0 <= u.0 < c.nNewBuckets && u == NewSlotIn(c, s.mapInfo[id].addr.service, u.0)
    ensures NewOk(c, TakeSlot(s, u, id))
  {
  }

  lemma TakeRefs(s: State, u: Slot, id: int, limbo: set<int>, extra: int)
    requires RefOk(s, limbo) && CountOk(s, limbo, extra) && id in s.mapInfo && !s.mapInfo[id].fInTried && u !in s.new_
    requires s.mapInfo[id].nRefCount < NEW_BUCKETS_PER_ADDRESS
    ensures RefOk(TakeSlot(s, u, id), limbo - {id})
    ensures CountOk(TakeSlot(s, u, id), limbo - {id}, if id in limbo then extra - 1 else extra)
  {
    hide SlotsOf, TriedIds, NewIds;
    var s' := TakeSlot(s, u, id);
    SlotAdded(s.new_, u, id);
    SameIds(s.mapInfo, s'.mapInfo, limbo);
    if id in limbo {
      NewIdLeaves(s'.mapInfo, limbo, id);
    } else {
      assert limbo - {id} == limbo;
    }
  }

  /** The slots that the hashes allow are all the slots that an entry has. */
  lemma OwnSlots(c: Config, s: State, id: int)
    requires NewOk(c, s) && id in s.mapInfo
    ensures (set u | u in s.new_ && s.new_[u] == id && u == NewSlotIn(c, s.mapInfo[id].addr.service, u.0)) == SlotsOf(s.new_, id)
  {
    forall u | u in SlotsOf(s.new_, id) ensures u == NewSlotIn(c, s.mapInfo[id].addr.service, u.0) { }
  }

  lemma SlotsRemoved(t: map<Slot, int>, id: int)
    ensures SlotsOf(t - SlotsOf(t, id), id) == {}
    ensures forall n :: n != id ==> SlotsOf(t - SlotsOf(t, id), n) == SlotsOf(t, n)
  {
    forall n | n != id ensures SlotsOf(t - SlotsOf(t, id), n) == SlotsOf(t, n) {
      forall u ensures u in SlotsOf(t - SlotsOf(t, id), n) <==> u in SlotsOf(t, n) { }
    }
  }

  lemma LeaveNewPre(c: Config, s: State, id: int)
    requires Mid(c, s, {}, 0) && id in s.mapInfo
    ensures RandOk(LeaveNew(c, s, id)) && NewOk(c, LeaveNew(c, s, id)) && TriedOk(c, LeaveNew(c, s, id))
  {
    hide RandOk, TriedOk, NewOk, RefOk, CountOk, Named;
    var s' := LeaveNew(c, s, id);
    RandFrame(s, s');
    TriedFrame(c, s, s');
    LeaveNewSlots(c, s, id);
  }

  lemma LeaveNewSlots(c: Config, s: State, id: int)
    requires NewOk(c, s) && id in s.mapInfo
    ensures NewOk(c, LeaveNew(c, s, id))
  {
  }

  /** Out of every new slot, the entry is in limbo and no longer counted. */
  lemma LeaveNewKeeps(c: Config, s: State, id: int)
    requires Mid(c, s, {}, 0) && id in s.mapInfo && !s.mapInfo[id].fInTried
    ensures Mid(c, LeaveNew(c, s, id), {id}, 0)
    ensures LeaveNew(c, s, id).mapInfo[id].nRefCount == 0
  {
    hide RandOk, TriedOk, NewOk, RefOk, CountOk, Named;
    var s' := LeaveNew(c, s, id);
    LeaveNewPre(c, s, id);
    NamedFrame(s, s');
    LeaveNewRefs(c, s, id);
  }

  lemma LeaveNewRefs(c: Config, s: State, id: int)
    requires NewOk(c, s) && RefOk(s, {}) && CountOk(s, {}, 0) && id in s.mapInfo && !s.mapInfo[id].fInTried
    ensures RefOk(LeaveNew(c, s, id), {id}) && CountOk(LeaveNew(c, s, id), {id}, 0)
  {
    var s' := LeaveNew(c, s, id);
    OwnSlots(c, s, id);
    SlotsRemoved(s.new_, id);
    SameIds(s.mapInfo, s'.mapInfo, {});
    assert id in NewIds(s.mapInfo, {});
    assert NewIds(s'.mapInfo, {id}) == NewIds(s.mapInfo, {}) - {id};
  }

  lemma LeaveTriedKeeps(c: Config, s: State, u: Slot, limbo: set<int>, extra: int)
    requires Mid(c, s, limbo, extra) && u in s.tried
    ensures Mid(c, LeaveTried(s, u), limbo + {s.tried[u]}, extra) && s.tried[u] !in limbo
  {
    var id, s' := s.tried[u], LeaveTried(s, u);
    NamedFrame(s, s');
    RandFrame(s, s');
    LeaveTriedTables(c, s, u);
    LeaveTriedRefs(s, u, limbo, extra);
  }

  lemma LeaveTriedTables(c: Config, s: State, u: Slot)
    requires TriedOk(c, s) && NewOk(c, s) && u in s.tried
    ensures TriedOk(c, LeaveTried(s, u)) && NewOk(c, LeaveTried(s, u))
  {
  }

  lemma LeaveTriedRefs(s: State, u: Slot, limbo: set<int>, extra: int)
    requires RefOk(s, limbo) && CountOk(s, limbo, extra)
    requires u in s.tried && s.tried[u] in s.mapInfo && s.mapInfo[s.tried[u]].fInTried
    ensures RefOk(LeaveTried(s, u), limbo + {s.tried[u]}) && CountOk(LeaveTried(s, u), limbo + {s.tried[u]}, extra)
  {
    var id, s' := s.tried[u], LeaveTried(s, u);
    assert id in TriedIds(s.mapInfo);
    assert TriedIds(s'.mapInfo) == TriedIds(s.mapInfo) - {id};
    assert NewIds(s'.mapInfo, limbo + {id}) == NewIds(s.mapInfo, limbo);
  }

  lemma EnterTriedKeeps(c: Config, s: State, u: Slot, id: int, limbo: set<int>, extra: int)
    requires Mid(c, s, limbo, extra) && id in limbo
    requires u == TriedSlot(c, s.mapInfo[id].addr.service) && u !in s.tried
    ensures Mid(c, EnterTried(s, u, id), limbo - {id}, extra)
  {
    var s' := EnterTried(s, u, id);
    NamedFrame(s, s');
    RandFrame(s, s');
    NoSlots(s, id);
    EnterTriedTables(c, s, u, id);
    EnterTriedRefs(s, u, id, limbo, extra);
  }

  lemma EnterTriedTables(c: Config, s: State, u: Slot, id: int)
    requires TriedOk(c, s) && NewOk(c, s) && id in s.mapInfo && !s.mapInfo[id].fInTried
    requires u == TriedSlot(c, s.mapInfo[id].addr.service) && u !in s.tried
    requires forall v :: v in s.new_ ==> s.new_[v] != id
    ensures TriedOk(c, EnterTried(s, u, id)) && NewOk(c, EnterTried(s, u, id))
  {
  }

  lemma EnterTriedRefs(s: State, u: Slot, id: int, limbo: set<int>, extra: int)
    requires RefOk(s, limbo) && CountOk(s, limbo, extra) && id in limbo
    ensures RefOk(EnterTried(s, u, id), limbo - {id}) && CountOk(EnterTried(s, u, id), limbo - {id}, extra)
  {
    var s' := EnterTried(s, u, id);
    assert TriedIds(s'.mapInfo) == TriedIds(s.mapInfo) + {id};
    assert NewIds(s'.mapInfo, limbo - {id}) == NewIds(s.mapInfo, limbo);
  }

  /** Nothing came in, and what stayed kept its address and its times. */
  ghost predicate Survivors(s: State, s': State) {
    forall n :: n in s'.mapInfo ==>
      && n in s.mapInfo && s'.mapInfo[n].addr == s.mapInfo[n].addr
      && s'.mapInfo[n].nLastTry == s.mapInfo[n].nLastTry && s'.mapInfo[n].nLastSuccess == s.mapInfo[n].nLastSuccess
  }

  /** Nothing came in, and what stayed kept its address, its statistics and its table. */
  ghost predicate Shrunk(s: State, s': State) {
    && s'.tried == s.tried && s'.nTried == s.nTried && s'.nIdCount == s.nIdCount
    && s'.nLastGood == s.nLastGood && s'.collisions == s.collisions
    && forall n :: n in s'.mapInfo ==> n in s.mapInfo && SameCore(s.mapInfo[n].(nRefCount := s'.mapInfo[n].nRefCount), s'.mapInfo[n])
  }

  lemma ClearNewKeeps(c: Config, s: State, u: Slot, limbo: set<int>, extra: int)
    requires Mid(c, s, limbo, extra)
    ensures Mid(c, ClearNew(s, u), limbo, extra)
  {
    if u in s.new_ {
      var id, s1 := s.new_[u], DropSlot(s, u);
      DropKeeps(c, s, u, limbo, extra);
      if s1.mapInfo[id].nRefCount == 0 {
        DeleteKeeps(c, s1, id, limbo + {id}, extra + 1);
        assert limbo + {id} - {id} == limbo;
      }
    }
  }

  lemma ClearNewTouches(c: Config, s: State, u: Slot, limbo: set<int>, extra: int)
    requires Mid(c, s, limbo, extra)
    ensures Shrunk(s, ClearNew(s, u)) && u !in ClearNew(s, u).new_
    ensures forall n :: n in s.mapInfo && !(u in s.new_ && s.new_[u] == n) ==>
              n in ClearNew(s, u).mapInfo && SameCore(s.mapInfo[n], ClearNew(s, u).mapInfo[n])
    ensures u in s.new_ ==> s.new_[u] !in limbo
  {
    hide RandOk, TriedOk, RefOk, CountOk, Named;
    if u in s.new_ {
      DropKeeps(c, s, u, limbo, extra);
      ClearNewParts(c, s, u, limbo, extra);
    }
  }

  lemma ClearNewParts(c: Config, s: State, u: Slot, limbo: set<int>, extra: int)
    requires RandOk(s) && u in s.new_ && s.new_[u] in s.mapInfo && RandOk(DropSlot(s, u))
    requires var id, s1 := s.new_[u], DropSlot(s, u); s1.mapInfo[id].nRefCount == 0 ==> Mid(c, s1, limbo + {id}, extra + 1)
    ensures Shrunk(s, ClearNew(s, u)) && u !in ClearNew(s, u).new_
    ensures forall n :: n in s.mapInfo && s.new_[u] != n ==>
              n in ClearNew(s, u).mapInfo && SameCore(s.mapInfo[n], ClearNew(s, u).mapInfo[n])
  {
    hide Mid, RandOk, DropSlot, Delete;
    var id, s1 := s.new_[u], DropSlot(s, u);
    DropTouches(s, u);
    if s1.mapInfo[id].nRefCount == 0 {
      DeleteTouches(c, s1, id, limbo + {id}, extra + 1);
    }
  }

  lemma DropTouches(s: State, u: Slot)
    requires u in s.new_ && s.new_[u] in s.mapInfo
    ensures var s' := DropSlot(s, u);
            && Shrunk(s, s') && u !in s'.new_ && s'.mapInfo.Keys == s.mapInfo.Keys
            && forall n :: n in s.mapInfo && n != s.new_[u] ==> s'.mapInfo[n] == s.mapInfo[n]
  {
  }

  lemma DeleteTouches(c: Config, s: State, id: int, limbo: set<int>, extra: int)
    requires Mid(c, s, limbo, extra) && id in limbo
    ensures RandOk(s) && id in s.mapInfo
    ensures var s' := Delete(s, id);
            && Shrunk(s, s') && s'.new_ == s.new_
            && forall n :: n in s.mapInfo && n != id ==> n in s'.mapInfo && SameCore(s.mapInfo[n], s'.mapInfo[n])
  {
    hide Mid, RandOk, Delete;
    LimboPlace(c, s, id, limbo, extra);
    DeleteKeeps(c, s, id, limbo, extra);
    DeleteFrame(s, id);
  }

  lemma DeleteFrame(s: State, id: int)
    requires RandOk(s) && id in s.mapInfo
    ensures var s' := Delete(s, id);
            && s'.new_ == s.new_ && s'.tried == s.tried && s'.nTried == s.nTried && s'.nIdCount == s.nIdCount
            && s'.nLastGood == s.nLastGood && s'.collisions == s.collisions
  {
    SwapMoves(s, s.mapInfo[id].nRandomPos, |s.vRandom| - 1);
  }

  // ------------------------------------------------------------------
  // Moving an entry to the tried table
  // ------------------------------------------------------------------

  /** The entry in tried slot `u` goes back to the new table, to the slot that its own source gives.
      `limbo` are the entries that are in neither table at this point. */
  function Evict(c: Config, s: State, u: Slot, ghost limbo: set<int>): State
    requires Mid(c, s, limbo, 0) && u in s.tried
  {
    var id := s.tried[u];
    LeaveTriedKeeps(c, s, u, limbo, 0);
    var s1 := LeaveTried(s, u);
    var v := NewSlot(c, s1.mapInfo[id].addr.service, s1.mapInfo[id].source);
    ClearNewTouches(c, s1, v, limbo + {id}, 0);
    var s2 := ClearNew(s1, v);
    PutInfo(s2, id, s2.mapInfo[id].(nRefCount := 1)).(new_ := s2.new_[v := id], nNew := s2.nNew + 1)
  }

  lemma NewSlotFits(c: Config, svc: Service, source: NetAddr)
    requires Sized(c)
    ensures var v := NewSlot(c, svc, source); 0 <= v.0 < c.nNewBuckets && v == NewSlotIn(c, svc, v.0)
  {
    assert 0 <= c.newBucket(svc, source) < c.nNewBuckets;
  }

  lemma EvictKeeps(c: Config, s: State, u: Slot, limbo: set<int>)
    requires Mid(c, s, limbo, 0) && u in s.tried
    ensures Mid(c, Evict(c, s, u, limbo), limbo, 0)
  {
    var id, s1 := s.tried[u], LeaveTried(s, u);
    LeaveTriedKeeps(c, s, u, limbo, 0);
    var v := NewSlot(c, s1.mapInfo[id].addr.service, s1.mapInfo[id].source);
    ClearNewKeeps(c, s1, v, limbo + {id}, 0);
    ClearNewTouches(c, s1, v, limbo + {id}, 0);
    NewSlotFits(c, s1.mapInfo[id].addr.service, s1.mapInfo[id].source);
    ReenterKeeps(c, ClearNew(s1, v), v, id, limbo);
  }

  lemma EvictTouches(c: Config, s: State, u: Slot, limbo: set<int>)
    requires Mid(c, s, limbo, 0) && u in s.tried
    ensures var s' := Evict(c, s, u, limbo);
            && s'.tried == s.tried - {u} && s'.nIdCount == s.nIdCount && s'.collisions == s.collisions && Survivors(s, s')
            && forall n :: n in limbo ==> n in s'.mapInfo && SameCore(s.mapInfo[n], s'.mapInfo[n])
  {
    hide RandOk, NewOk, CountOk, Named, ClearNew, SlotsOf;
    var id, s1 := s.tried[u], LeaveTried(s, u);
    LeaveTriedKeeps(c, s, u, limbo, 0);
    ClearNewTouches(c, s1, NewSlot(c, s1.mapInfo[id].addr.service, s1.mapInfo[id].source), limbo + {id}, 0);
  }

  /** Entering an evicted entry into a free new slot of its own. */
  lemma ReenterKeeps(c: Config, s: State, v: Slot, id: int, limbo: set<int>)
    requires Mid(c, s, limbo + {id}, 0) && id !in limbo && v !in s.new_
    requires 0 <= v.0 < c.nNewBuckets && v == NewSlotIn(c, s.mapInfo[id].addr.service, v.0)
    ensures Mid(c, PutInfo(s, id, s.mapInfo[id].(nRefCount := 1)).(new_ := s.new_[v := id], nNew := s.nNew + 1), limbo, 0)
  {
    NoRefs(s, id, limbo + {id});
    var s1 := ReenterTakes(c, s, v, id, limbo);
    hide Mid;
    CountUp(c, s1, limbo, -1);
  }

  lemma ReenterTakes(c: Config, s: State, v: Slot, id: int, limbo: set<int>) returns (s1: State)
    requires Mid(c, s, limbo + {id}, 0) && id in s.mapInfo && !s.mapInfo[id].fInTried && id !in limbo && v !in s.new_
    requires 0 <= v.0 < c.nNewBuckets && v == NewSlotIn(c, s.mapInfo[id].addr.service, v.0)
    requires s.mapInfo[id].nRefCount == 0
    ensures s1 == PutInfo(s, id, s.mapInfo[id].(nRefCount := 1)).(new_ := s.new_[v := id])
    ensures Mid(c, s1, limbo, -1)
  {
    s1 := TakeSlot(s, v, id);
    hide Mid, PutInfo;
    TakeKeeps(c, s, v, id, limbo + {id}, 0);
    assert limbo + {id} - {id} == limbo;
  }

  lemma NoRefs(s: State, id: int, limbo: set<int>)
    requires RefOk(s, limbo) && id in limbo
    ensures s.mapInfo[id].nRefCount == 0
  {
  }

  lemma CountUp(c: Config, s: State, limbo: set<int>, extra: int)
    requires Mid(c, s, limbo, extra)
    ensures Mid(c, s.(nNew := s.nNew + 1), limbo, extra + 1)
  {
    hide RandOk, TriedOk, NewOk, RefOk, Named;
    var s' := s.(nNew := s.nNew + 1);
    NamedFrame(s, s');
    RandFrame(s, s');
    TriedFrame(c, s, s');
    NewFrame(c, s, s');
    RefFrame(s, s', limbo);
  }

  /** The state in which the entry's tried slot is free and the entry is in neither table. */
  function MakeRoom(c: Config, s: State, id: int): State
    requires Indexed(c, s) && id in s.mapInfo && !s.mapInfo[id].fInTried
  {
    LeaveNewKeeps(c, s, id);
    var s1 := LeaveNew(c, s, id);
    var u := TriedSlot(c, s1.mapInfo[id].addr.service);
    if u in s1.tried then Evict(c, s1, u, {id}) else s1
  }

  lemma MakeRoomKeeps(c: Config, s: State, id: int)
    requires Indexed(c, s) && id in s.mapInfo && !s.mapInfo[id].fInTried
    ensures Mid(c, MakeRoom(c, s, id), {id}, 0)
  {
    LeaveNewKeeps(c, s, id);
    var s1 := LeaveNew(c, s, id);
    var u := TriedSlot(c, s1.mapInfo[id].addr.service);
    if u in s1.tried {
      EvictKeeps(c, s1, u, {id});
    }
  }

  lemma MakeRoomTouches(c: Config, s: State, id: int)
    requires Indexed(c, s) && id in s.mapInfo && !s.mapInfo[id].fInTried
    ensures var s', u := MakeRoom(c, s, id), TriedSlot(c, s.mapInfo[id].addr.service);
            && s'.tried == s.tried - {u} && s'.nIdCount == s.nIdCount && s'.collisions == s.collisions && Survivors(s, s')
            && id in s'.mapInfo && SameCore(s.mapInfo[id].(nRefCount := 0), s'.mapInfo[id])
  {
    hide RandOk, NewOk, RefOk, CountOk, Named, TriedOk, Evict;
    LeaveNewKeeps(c, s, id);
    var s1 := LeaveNew(c, s, id);
    var u := TriedSlot(c, s1.mapInfo[id].addr.service);
    if u in s1.tried {
      EvictTouches(c, s1, u, {id});
    } else {
      assert s.tried - {u} == s.tried;
    }
  }

  function MakeTried(c: Config, s: State, id: int): State
    requires Indexed(c, s) && id in s.mapInfo && !s.mapInfo[id].fInTried
  {
    MakeRoomTouches(c, s, id);
    EnterTried(MakeRoom(c, s, id), TriedSlot(c, s.mapInfo[id].addr.service), id)
  }

  /** MakeTried fills the entry's tried slot, and no tried slot is emptied. */
  lemma MakeTriedTouches(c: Config, s: State, id: int)
    requires Indexed(c, s) && id in s.mapInfo && !s.mapInfo[id].fInTried
    ensures var s' := MakeTried(c, s, id);
            && s'.tried == s.tried[TriedSlot(c, s.mapInfo[id].addr.service) := id]
            && s'.nIdCount == s.nIdCount && s'.collisions == s.collisions && Survivors(s, s')
  {
    MakeRoomTouches(c, s, id);
    EnterTouches(s, MakeRoom(c, s, id), TriedSlot(c, s.mapInfo[id].addr.service), id);
  }

  lemma EnterTouches(s: State, room: State, u: Slot, id: int)
    requires room.tried == s.tried - {u} && Survivors(s, room) && id in room.mapInfo
    ensures EnterTried(room, u, id).tried == s.tried[u := id] && Survivors(s, EnterTried(room, u, id))
  {
  }

  /** MakeTried keeps every index consistent. */
  lemma MakeTriedKeeps(c: Config, s: State, id: int)
    requires Indexed(c, s) && id in s.mapInfo && !s.mapInfo[id].fInTried
    ensures Indexed(c, MakeTried(c, s, id))
  {
    var room := MakeRoom(c, s, id);
    MakeRoomTouches(c, s, id);
    assert room.mapInfo[id].addr == s.mapInfo[id].addr;
    MakeRoomKeeps(c, s, id);
    FillTried(c, room, TriedSlot(c, s.mapInfo[id].addr.service), id);
  }

  lemma FillTried(c: Config, s: State, u: Slot, id: int)
    requires Mid(c, s, {id}, 0)
    requires u == TriedSlot(c, s.mapInfo[id].addr.service) && u !in s.tried
    ensures Indexed(c, EnterTried(s, u, id))
  {
    EnterTriedKeeps(c, s, u, id, {id}, 0);
    assert {id} - {id} == {};
  }
}
