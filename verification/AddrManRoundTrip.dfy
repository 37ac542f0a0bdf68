/** Reading back what a consistent address manager wrote. */
module AddrManRoundTrip {
  import opened Basics
  import opened AddrMan
  import opened AddrManDisk

  ghost function Firsts(n: nat): (r: set<int>)
    ensures forall i :: i in r <==> 0 <= i < n
  {
    if n == 0 then {} else Firsts(n - 1) + {n - 1}
  }

  function All(img: Image): seq<Record> { img.newInfos + img.triedInfos }

  /** The slot that the stored bucket of new record `i` gives. */
  function SlotFor(c: Config, img: Image, e: map<int, int>, i: int): Slot
    requires 0 <= i < |img.newInfos| && i in e
  {
    NewSlotIn(c, img.newInfos[i].addr.service, e[i])
  }

  ghost predicate DistinctIps(rs: seq<Record>) {
    forall i, j :: 0 <= i < j < |rs| ==> rs[i].addr.service.ip != rs[j].addr.service.ip
  }

  ghost predicate DistinctTried(c: Config, rs: seq<Record>) {
    forall i, j :: 0 <= i < j < |rs| ==> TriedSlot(c, rs[i].addr.service) != TriedSlot(c, rs[j].addr.service)
  }

  ghost predicate DistinctSlots(c: Config, img: Image, e: map<int, int>) {
    && (forall i :: 0 <= i < |img.newInfos| ==> i in e && 0 <= e[i] < c.nNewBuckets)
    && (forall i, j :: 0 <= i < j < |img.newInfos| ==> SlotFor(c, img, e, i) != SlotFor(c, img, e, j))
  }

  /** No two entries have the same address. */
  ghost predicate Wellformed(c: Config, img: Image) { Framed(c, img) && DistinctIps(All(img)) }

  ghost predicate Framed(c: Config, img: Image) { Sized(c) && img.nNew == |img.newInfos| && img.nTried == |img.triedInfos| }

  /** Nor the same tried slot. */
  ghost predicate Readable(c: Config, img: Image) { Wellformed(c, img) && DistinctTried(c, img.triedInfos) }

  /** What makes reading lossless. */
  ghost predicate Loadable(c: Config, img: Image, e: map<int, int>) { Readable(c, img) && DistinctSlots(c, img, e) }

  /** The first `n` records are the entries, under their own indexes. */
  ghost predicate Holds(img: Image, s: State, n: nat) {
    && n <= |All(img)|
    && (forall i :: i in s.mapInfo <==> 0 <= i < n)
    && (forall i :: i in s.mapInfo ==>
          Saved(s.mapInfo[i]) == All(img)[i] && s.mapInfo[i].nLastTry == 0 && (s.mapInfo[i].fInTried <==> i >= |img.newInfos|))
  }

  // ------------------------------------------------------------------
  // Reading the new entries: they stay in neither table for the moment
  // ------------------------------------------------------------------

  /** An admitted entry is a created one with its stored fields. */
  lemma AdmitKeeps(c: Config, s: State, r: Record, limbo: set<int>, extra: int) returns (s': State)
    requires Mid(c, s, limbo, extra) && r.addr.service.ip !in s.mapAddr
    ensures s' == Admit(s, s.nIdCount, r, false).(nIdCount := s.nIdCount + 1)
    ensures Mid(c, s', limbo + {s.nIdCount}, extra)
  {
    hide Mid, RandOk;
    var id, s1 := s.nIdCount, Create(s, r.addr, r.source);
    CreateKeeps(c, s, r.addr, r.source, limbo, extra);
    var info := Restored(r).(nRandomPos := |s.vRandom|);
    TouchKeeps(c, s1, id, info, limbo + {id}, extra);
    s' := PutInfo(s1, id, info);
  }

  lemma AdmitFrame(s: State, id: int, r: Record, fTried: bool)
    ensures var s' := Admit(s, id, r, fTried);
            s' == s.(mapInfo := s'.mapInfo, mapAddr := s'.mapAddr, vRandom := s'.vRandom)
  {
  }

  lemma UnusedIp(img: Image, s: State, n: nat)
    requires DistinctIps(All(img)) && Holds(img, s, n) && AddrOk(s) && n < |All(img)|
    ensures All(img)[n].addr.service.ip !in s.mapAddr
  {
    var ip := All(img)[n].addr.service.ip;
    forall a | a in s.mapAddr ensures a != ip {
      var i := s.mapAddr[a];
      assert Saved(s.mapInfo[i]) == All(img)[i];
    }
  }

  /** The state with the counters that its entries justify so far. */
  function Counted(s: State, nIdCount: int, nTried: int): State { s.(nIdCount := nIdCount, nTried := nTried) }

  lemma {:induction false} LoadNewKeeps(c: Config, img: Image, n: nat)
    requires Wellformed(c, img) && n <= |img.newInfos|
    ensures Holds(img, LoadNew(img, n), n)
    ensures Mid(c, Counted(LoadNew(img, n), n, 0), Firsts(n), img.nNew)
    ensures LoadNew(img, n).new_ == map[] && LoadNew(img, n).nNew == img.nNew && LoadNew(img, n).nTried == img.nTried
    ensures LoadNew(img, n).tried == map[]
  {
    hide Mid, Holds, RandOk;
    if n == 0 {
      NothingLoaded(c, img);
    } else {
      LoadNewKeeps(c, img, n - 1);
      LoadNewStep(c, img, LoadNew(img, n - 1), n - 1);
    }
  }

  lemma NothingLoaded(c: Config, img: Image)
    requires Sized(c)
    ensures Mid(c, Counted(LoadNew(img, 0), 0, 0), Firsts(0), img.nNew) && Holds(img, LoadNew(img, 0), 0)
  {
    assert TriedIds(map[]) == {} && NewIds(map[], {}) == {};
  }

  lemma LoadNewStep(c: Config, img: Image, s: State, n: nat)
    requires n < |img.newInfos| && DistinctIps(All(img))
    requires Holds(img, s, n) && Mid(c, Counted(s, n, 0), Firsts(n), img.nNew)
    ensures Holds(img, Admit(s, n, img.newInfos[n], false), n + 1)
    ensures Mid(c, Counted(Admit(s, n, img.newInfos[n], false), n + 1, 0), Firsts(n + 1), img.nNew)
  {
    hide Mid, Holds;
    assert All(img)[n] == img.newInfos[n];
    AdmitHolds(img, s, n);
    NextIp(c, img, s, Counted(s, n, 0), n, Firsts(n));
    var s' := AdmitKeeps(c, Counted(s, n, 0), img.newInfos[n], Firsts(n), img.nNew);
  }

  lemma AdmitHolds(img: Image, s: State, n: nat)
    requires Holds(img, s, n) && n < |All(img)|
    ensures Holds(img, Admit(s, n, All(img)[n], n >= |img.newInfos|), n + 1)
  {
  }

  lemma HoldsFrame(img: Image, s: State, s': State, n: nat)
    requires Holds(img, s, n) && s'.mapInfo == s.mapInfo
    ensures Holds(img, s', n)
  {
  }

  lemma NextIp(c: Config, img: Image, s: State, t: State, n: nat, limbo: set<int>)
    requires Holds(img, s, n) && DistinctIps(All(img)) && n < |All(img)|
    requires t == Counted(s, t.nIdCount, t.nTried) && Mid(c, t, limbo, img.nNew)
    ensures All(img)[n].addr.service.ip !in s.mapAddr
  {
    UnusedIp(img, s, n);
  }

  // ------------------------------------------------------------------
  // Reading the tried entries: every slot is free
  // ------------------------------------------------------------------

  lemma FreeTried(c: Config, img: Image, s: State, t: State, n: nat)
    requires DistinctTried(c, img.triedInfos) && n < |img.triedInfos| && Holds(img, s, |img.newInfos| + n)
    requires t == Counted(s, t.nIdCount, t.nTried) && Mid(c, t, Firsts(|img.newInfos|), img.nNew)
    ensures TriedSlot(c, img.triedInfos[n].addr.service) !in s.tried
  {
    hide RandOk, NewOk, RefOk, CountOk, Named;
    var u := TriedSlot(c, img.triedInfos[n].addr.service);
    forall v | v in s.tried ensures v != u {
      var i := s.tried[v];
      assert v in t.tried && i in t.mapInfo && v == TriedSlot(c, t.mapInfo[i].addr.service);
      assert Saved(s.mapInfo[i]) == All(img)[i];
      assert All(img)[i] == img.triedInfos[i - |img.newInfos|];
    }
  }

  lemma TriedStepKeeps(c: Config, s: State, r: Record, limbo: set<int>, extra: int) returns (s': State)
    requires Mid(c, s, limbo, extra) && s.nIdCount !in limbo && r.addr.service.ip !in s.mapAddr
    requires TriedSlot(c, r.addr.service) !in s.tried && s.nIdCount != -1
    ensures s' == Admit(s, s.nIdCount, r, true).(tried := WithSlot(s.tried, TriedSlot(c, r.addr.service), s.nIdCount),
                                                 nIdCount := s.nIdCount + 1, nTried := s.nTried + 1)
    ensures Mid(c, s', limbo, extra)
  {
    hide Mid, RandOk;
    var id, u := s.nIdCount, TriedSlot(c, r.addr.service);
    var s1 := AdmitKeeps(c, s, r, limbo, extra);
    EnterTriedKeeps(c, s1, u, id, limbo + {id}, extra);
    assert limbo + {id} - {id} == limbo;
    s' := EnterTried(s1, u, id);
  }

  lemma LoadTriedStep(c: Config, img: Image, s: State, n: nat)
    requires n < |img.triedInfos| && DistinctIps(All(img)) && DistinctTried(c, img.triedInfos)
    requires s.nIdCount == |img.newInfos| + n
    requires Holds(img, s, s.nIdCount) && Mid(c, Counted(s, s.nIdCount, n), Firsts(|img.newInfos|), img.nNew)
    ensures var u := TriedSlot(c, img.triedInfos[n].addr.service);
            && u !in s.tried
            && var s' := Admit(s, s.nIdCount, img.triedInfos[n], true).(tried := WithSlot(s.tried, u, s.nIdCount), nIdCount := s.nIdCount + 1);
            && Holds(img, s', s'.nIdCount) && Mid(c, Counted(s', s'.nIdCount, n + 1), Firsts(|img.newInfos|), img.nNew)
  {
    hide Mid, Holds;
    var t := Counted(s, s.nIdCount, n);
    assert All(img)[s.nIdCount] == img.triedInfos[n];
    AdmitHolds(img, s, s.nIdCount);
    var u := TriedSlot(c, img.triedInfos[n].addr.service);
    var s1 := Admit(s, s.nIdCount, img.triedInfos[n], true);
    HoldsFrame(img, s1, s1.(tried := WithSlot(s.tried, u, s.nIdCount), nIdCount := s.nIdCount + 1), s.nIdCount + 1);
    NextIp(c, img, s, t, s.nIdCount, Firsts(|img.newInfos|));
    FreeTried(c, img, s, t, n);
    var t' := TriedStepKeeps(c, t, img.triedInfos[n], Firsts(|img.newInfos|), img.nNew);
  }

  lemma {:induction false} LoadTriedKeeps(c: Config, img: Image, s: State, n: nat)
    requires Readable(c, img) && n <= |img.triedInfos| && s.nIdCount == |img.newInfos|
    requires Holds(img, s, s.nIdCount) && RandOk(s) && forall i :: i in s.mapInfo ==> i < s.nIdCount
    requires Mid(c, Counted(s, s.nIdCount, 0), Firsts(|img.newInfos|), img.nNew)
    ensures var (s', nLost) := LoadTried(c, img, s, n);
            && nLost == 0 && s'.nIdCount == |img.newInfos| + n && s'.nTried == s.nTried && s'.new_ == s.new_ && s'.nNew == s.nNew
            && Holds(img, s', s'.nIdCount)
            && Mid(c, Counted(s', s'.nIdCount, n), Firsts(|img.newInfos|), img.nNew)
  {
    hide Mid, Holds, RandOk, LoadTried, Admit, DistinctIps, DistinctTried;
    if n == 0 {
      LoadTriedNone(c, img, s);
    } else {
      LoadTriedKeeps(c, img, s, n - 1);
      var s1 := LoadTried(c, img, s, n - 1).0;
      LoadTriedStep(c, img, s1, n - 1);
      LoadTriedNext(c, img, s, n - 1, s1, 0);
      AdmitFrame(s1, s1.nIdCount, img.triedInfos[n - 1], true);
    }
  }

  // ------------------------------------------------------------------
  // Giving the new entries their slots back
  // ------------------------------------------------------------------

  /** The first `n` new entries have one slot each, the one they had when they were written. */
  ghost predicate Placed(c: Config, img: Image, e: map<int, int>, s: State, n: nat)
    requires DistinctSlots(c, img, e)
  {
    && n <= |img.newInfos|
    && (forall v :: v in s.new_ ==> 0 <= s.new_[v] < n && v == SlotFor(c, img, e, s.new_[v]))
    && (forall i :: i in s.mapInfo && i < |img.newInfos| ==> s.mapInfo[i].nRefCount == if i < n then 1 else 0)
    && (forall i :: 0 <= i < n ==> var u := SlotFor(c, img, e, i); u in s.new_ && s.new_[u] == i)
  }

  /** The entries that have no slot yet. */
  ghost function Waiting(img: Image, n: nat): set<int> { Firsts(|img.newInfos|) - Firsts(n) }

  lemma PlaceStep(c: Config, img: Image, e: map<int, int>, s: State, n: nat)
    requires DistinctSlots(c, img, e) && Placed(c, img, e, s, n) && n < |img.newInfos| && RandOk(s)
    requires Holds(img, s, |All(img)|)
    ensures n as int in s.mapInfo && !s.mapInfo[n].fInTried && s.mapInfo[n].nRefCount == 0
    ensures var u := SlotFor(c, img, e, n);
            && u == NewSlotIn(c, s.mapInfo[n].addr.service, e[n]) && u !in s.new_
            && PlaceOne(c, s, e, true, n) == TakeSlot(s, u, n)
  {
    assert Saved(s.mapInfo[n]) == All(img)[n] == img.newInfos[n];
    var u := SlotFor(c, img, e, n);
    forall v | v in s.new_ ensures v != u {
      assert v == SlotFor(c, img, e, s.new_[v]);
    }
  }

  lemma TakenPlaced(c: Config, img: Image, e: map<int, int>, s: State, n: nat)
    requires DistinctSlots(c, img, e) && Placed(c, img, e, s, n) && n < |img.newInfos| && n as int in s.mapInfo
    ensures Placed(c, img, e, TakeSlot(s, SlotFor(c, img, e, n), n), n + 1)
  {
    var s' := TakeSlot(s, SlotFor(c, img, e, n), n);
    forall i | 0 <= i < n + 1 ensures var u := SlotFor(c, img, e, i); u in s'.new_ && s'.new_[u] == i {
    }
  }

  lemma TakenHolds(img: Image, s: State, u: Slot, id: int, n: nat)
    requires Holds(img, s, n) && id in s.mapInfo
    ensures Holds(img, TakeSlot(s, u, id), n)
  {
  }

  lemma {:induction false} PlaceKeeps(c: Config, img: Image, e: map<int, int>, s: State, n: nat)
    requires DistinctSlots(c, img, e) && n <= |img.newInfos| && RandOk(s) && (forall i :: 0 <= i < n ==> i in s.mapInfo)
    requires Holds(img, s, |All(img)|) && Placed(c, img, e, s, 0) && Mid(c, s, Waiting(img, 0), |img.newInfos|)
    ensures var s' := PlaceAll(c, s, e, true, n);
            && Holds(img, s', |All(img)|) && Placed(c, img, e, s', n) && Mid(c, s', Waiting(img, n), |img.newInfos| - n)
            && s'.nNew == s.nNew && s'.nTried == s.nTried && s'.tried == s.tried && s'.nIdCount == s.nIdCount
  {
    hide Mid, Holds, Placed, RandOk, PlaceOne, SlotFor, Waiting, TakeSlot, DistinctSlots;
    if n > 0 {
      PlaceKeeps(c, img, e, s, n - 1);
      var s1 := PlaceAll(c, s, e, true, n - 1);
      HasSlot(c, img, e, n - 1);
      var u := SlotFor(c, img, e, n - 1);
      PlaceStep(c, img, e, s1, n - 1);
      TakenPlaced(c, img, e, s1, n - 1);
      TakenHolds(img, s1, u, n - 1, |All(img)|);
      TakeKeeps(c, s1, u, n - 1, Waiting(img, n - 1), |img.newInfos| - n + 1);
      TakenFrame(s1, u, n - 1);
      NextWaiting(img, n - 1);
    }
  }

  lemma HasSlot(c: Config, img: Image, e: map<int, int>, n: nat)
    requires DistinctSlots(c, img, e) && n < |img.newInfos|
    ensures n as int in e && var u := SlotFor(c, img, e, n); 0 <= u.0 < c.nNewBuckets && u.0 == e[n]
  {
  }

  lemma TakenFrame(s: State, u: Slot, id: int)
    requires id in s.mapInfo
    ensures var s' := TakeSlot(s, u, id); s' == s.(mapInfo := s'.mapInfo, new_ := s.new_[u := id])
  {
  }

  lemma NextWaiting(img: Image, n: nat)
    requires n < |img.newInfos|
    ensures n in Waiting(img, n) && Waiting(img, n) - {n} == Waiting(img, n + 1)
  {
  }

  // ------------------------------------------------------------------
  // Reading as a whole
  // ------------------------------------------------------------------

  lemma {:induction false} NothingPruned(c: Config, s: State, lo: int, hi: int)
    requires RandOk(s) && forall i :: i in s.mapInfo ==> s.mapInfo[i].fInTried || s.mapInfo[i].nRefCount != 0
    ensures Prune(s, lo, hi) == s
    decreases hi - lo
  {
    if lo < hi {
      NothingPruned(c, s, lo, hi - 1);
    }
  }

  ghost predicate Acceptable(env: Env, asmap: Asmap, c: Config, img: Image) {
    && c == env.hashes(img.nKey, asmap) && Reusable(env, asmap, c, img) && img.nKeySize == KEY_SIZE
    && img.nNew <= c.nNewBuckets * c.nBucketSize && img.nTried <= c.nTriedBuckets * c.nBucketSize
    && |img.buckets| == c.nNewBuckets && img.nNew == |img.newInfos| && img.nTried == |img.triedInfos|
    && Loadable(c, img, EntryToBucket(img, c.nNewBuckets))
  }

  /** The manager read from `img` holds exactly its records, new ones in one stored slot each. */
  ghost predicate Faithful(c: Config, img: Image, e: map<int, int>, s: State) {
    && Indexed(c, s) && s.nNew == img.nNew && s.nTried == img.nTried
    && Holds(img, s, |All(img)|) && DistinctSlots(c, img, e) && Placed(c, img, e, s, |img.newInfos|)
  }

  lemma LoadFaithful(env: Env, asmap: Asmap, c: Config, img: Image)
    requires Acceptable(env, asmap, c, img)
    ensures Load(env, asmap, img).Some?
    ensures Faithful(c, img, EntryToBucket(img, c.nNewBuckets), Load(env, asmap, img).value)
  {
    hide Mid, Holds, Placed, RandOk, Faithful, DistinctIps, DistinctTried, LoadNew, LoadTried, PlaceAll, Prune, EntryToBucket, DistinctSlots;
    var e := EntryToBucket(img, c.nNewBuckets);
    var s1 := LoadedNew(c, img);
    var s2 := LoadedTried(c, img, s1);
    var s3 := LoadedPlaces(c, img, e, s2);
    NothingPruned(c, s3, 0, s3.nIdCount);
  }

  lemma LoadedNew(c: Config, img: Image) returns (s1: State)
    requires Wellformed(c, img)
    ensures s1 == LoadNew(img, |img.newInfos|).(nIdCount := img.nNew)
    ensures Holds(img, s1, |img.newInfos|) && RandOk(s1) && s1.new_ == map[] && s1.nTried == img.nTried && s1.nNew == img.nNew
    ensures s1.tried == map[] && (forall i :: i in s1.mapInfo ==> i < s1.nIdCount)
    ensures Mid(c, Counted(s1, s1.nIdCount, 0), Firsts(|img.newInfos|), img.nNew)
  {
    hide Mid, LoadNew;
    LoadNewKeeps(c, img, |img.newInfos|);
    s1 := LoadNew(img, |img.newInfos|).(nIdCount := img.nNew);
    assert Counted(s1, s1.nIdCount, 0) == Counted(LoadNew(img, |img.newInfos|), |img.newInfos|, 0);
  }

  lemma LoadedTried(c: Config, img: Image, s1: State) returns (s2: State)
    requires Readable(c, img) && s1.nIdCount == |img.newInfos| && img.nTried == |img.triedInfos| && s1.new_ == map[]
    requires s1.nTried == img.nTried && s1.nNew == img.nNew
    requires Holds(img, s1, |img.newInfos|) && RandOk(s1) && forall i :: i in s1.mapInfo ==> i < s1.nIdCount
    requires Mid(c, Counted(s1, s1.nIdCount, 0), Firsts(|img.newInfos|), img.nNew)
    ensures LoadTried(c, img, s1, |img.triedInfos|) == (s2, 0)
    ensures Holds(img, s2, |All(img)|) && RandOk(s2) && s2.new_ == map[]
    ensures s2.nTried == img.nTried && s2.nNew == img.nNew
    ensures Mid(c, s2, Waiting(img, 0), |img.newInfos|)
  {
    hide Mid, Holds, LoadTried, RandOk;
    LoadTriedKeeps(c, img, s1, |img.triedInfos|);
    s2 := LoadTried(c, img, s1, |img.triedInfos|).0;
    assert Counted(s2, s2.nIdCount, |img.triedInfos|) == s2;
    assert Waiting(img, 0) == Firsts(|img.newInfos|);
  }

  lemma LoadedPlaces(c: Config, img: Image, e: map<int, int>, s2: State) returns (s3: State)
    requires Loadable(c, img, e) && Holds(img, s2, |All(img)|) && RandOk(s2) && s2.new_ == map[]
    requires s2.nTried == img.nTried && s2.nNew == img.nNew
    requires Mid(c, s2, Waiting(img, 0), |img.newInfos|)
    ensures forall i :: 0 <= i < |img.newInfos| ==> i in s2.mapInfo
    ensures s3 == PlaceAll(c, s2, e, true, |img.newInfos|)
    ensures Faithful(c, img, e, s3)
    ensures forall i :: i in s3.mapInfo ==> s3.mapInfo[i].fInTried || s3.mapInfo[i].nRefCount != 0
  {
    hide PlaceAll, Mid, Holds, Placed, RandOk, DistinctSlots;
    Unplaced(c, img, e, s2);
    PlaceKeeps(c, img, e, s2, |img.newInfos|);
    s3 := PlaceAll(c, s2, e, true, |img.newInfos|);
    assert Waiting(img, |img.newInfos|) == {};
    AllPlaced(c, img, e, s3);
  }

  lemma AllPlaced(c: Config, img: Image, e: map<int, int>, s: State)
    requires DistinctSlots(c, img, e) && Holds(img, s, |All(img)|) && Placed(c, img, e, s, |img.newInfos|)
    ensures forall i :: i in s.mapInfo ==> s.mapInfo[i].fInTried || s.mapInfo[i].nRefCount != 0
  {
  }

  lemma Unplaced(c: Config, img: Image, e: map<int, int>, s: State)
    requires DistinctSlots(c, img, e) && Holds(img, s, |All(img)|) && s.new_ == map[] && Mid(c, s, Waiting(img, 0), |img.newInfos|)
    ensures Placed(c, img, e, s, 0) && forall i :: 0 <= i < |img.newInfos| ==> i in s.mapInfo
  {
    forall i | i in s.mapInfo && i < |img.newInfos| ensures s.mapInfo[i].nRefCount == 0 {
      assert SlotsOf(s.new_, i) == {};
    }
  }

  // ------------------------------------------------------------------
  // What a consistent manager writes
  // ------------------------------------------------------------------

  lemma {:induction false} IdsAscend(m: map<int, AddrInfo>, fTried: bool, n: nat, i: nat, j: nat)
    requires i < j < |IdsBelow(m, fTried, n)|
    ensures IdsBelow(m, fTried, n)[i] < IdsBelow(m, fTried, n)[j]
  {
    if j < |IdsBelow(m, fTried, n - 1)| {
      IdsAscend(m, fTried, n - 1, i, j);
    }
  }

  /** Each selected id is at the index that the number of smaller ones gives. */
  lemma {:induction false} IdAtIndex(m: map<int, AddrInfo>, fTried: bool, id: nat, n: nat)
    requires id < n && id as int in m && Selected(m[id], fTried)
    ensures |IdsBelow(m, fTried, id)| < |IdsBelow(m, fTried, n)|
    ensures IdsBelow(m, fTried, n)[|IdsBelow(m, fTried, id)|] == id
  {
    if id < n - 1 {
      IdAtIndex(m, fTried, id, n - 1);
    }
  }

  ghost function SelectedBelow(m: map<int, AddrInfo>, fTried: bool, n: nat): set<int> {
    set id | id in m && Selected(m[id], fTried) && 0 <= id < n
  }

  lemma {:induction false} IdsCount(m: map<int, AddrInfo>, fTried: bool, n: nat)
    ensures |IdsBelow(m, fTried, n)| == |SelectedBelow(m, fTried, n)|
  {
    hide Selected, SelectedBelow;
    if n == 0 {
      NoneSelected(m, fTried);
    } else {
      IdsCount(m, fTried, n - 1);
      SelectedNext(m, fTried, n - 1);
    }
  }

  lemma NoneSelected(m: map<int, AddrInfo>, fTried: bool)
    ensures SelectedBelow(m, fTried, 0) == {}
  {
  }

  lemma SelectedNext(m: map<int, AddrInfo>, fTried: bool, n: nat)
    ensures var before := SelectedBelow(m, fTried, n);
            && n !in before
            && SelectedBelow(m, fTried, n + 1) == if n as int in m && Selected(m[n], fTried) then before + {n} else before
  {
  }

  /** New entries are those with references. */
  lemma SelectedSplit(c: Config, s: State)
    requires Indexed(c, s)
    ensures forall n :: n in s.mapInfo ==> (Selected(s.mapInfo[n], false) <==> !s.mapInfo[n].fInTried)
    ensures s.nIdCount >= 0 && forall n :: n in s.mapInfo ==> 0 <= n < s.nIdCount
    ensures s.nNew == |IdsBelow(s.mapInfo, false, s.nIdCount)| && s.nTried == |IdsBelow(s.mapInfo, true, s.nIdCount)|
  {
    hide RandOk, TriedOk, NewOk, AddrOk, TimeOk, IdsBelow;
    IdsCount(s.mapInfo, false, s.nIdCount);
    IdsCount(s.mapInfo, true, s.nIdCount);
    forall n | n in s.mapInfo ensures (Selected(s.mapInfo[n], false) <==> !s.mapInfo[n].fInTried) && 0 <= n < s.nIdCount {
      assert s.mapInfo[n].nRefCount == |SlotsOf(s.new_, n)|;
    }
    assert SelectedBelow(s.mapInfo, false, s.nIdCount) == NewIds(s.mapInfo, {});
    assert SelectedBelow(s.mapInfo, true, s.nIdCount) == TriedIds(s.mapInfo);
  }

  /** The ids in the order in which their records are written. */
  ghost function Written(s: State): seq<int>
    requires s.nIdCount >= 0
  {
    IdsBelow(s.mapInfo, false, s.nIdCount) + IdsBelow(s.mapInfo, true, s.nIdCount)
  }

  lemma WrittenOnce(c: Config, s: State)
    requires Indexed(c, s)
    ensures s.nIdCount >= 0
    ensures forall i :: 0 <= i < |Written(s)| ==>
              Written(s)[i] in s.mapInfo && (s.mapInfo[Written(s)[i]].fInTried <==> i >= s.nNew)
    ensures forall i, j :: 0 <= i < j < |Written(s)| ==> Written(s)[i] != Written(s)[j]
  {
    hide RandOk, TriedOk, NewOk, AddrOk, TimeOk, IdsBelow, RefOk;
    SelectedSplit(c, s);
    hide Mid, IdsBelow;
    var m, n := s.mapInfo, s.nIdCount as nat;
    var k := |IdsBelow(m, false, n)|;
    forall i, j | 0 <= i < j < |Written(s)| ensures Written(s)[i] != Written(s)[j] {
      if j < k {
        IdsAscend(m, false, n, i, j);
      } else if i >= k {
        IdsAscend(m, true, n, i - k, j - k);
      }
    }
  }

  lemma SavedRecords(c: Config, s: State, nKey: nat, asmapVersion: nat)
    requires Indexed(c, s)
    ensures s.nIdCount >= 0
    ensures var img := Save(c, s, nKey, asmapVersion);
            && |img.newInfos| == img.nNew == s.nNew && |img.triedInfos| == img.nTried == s.nTried
            && |All(img)| == |Written(s)|
            && (forall i :: 0 <= i < |Written(s)| ==> Written(s)[i] in s.mapInfo && All(img)[i] == Saved(s.mapInfo[Written(s)[i]]))
  {
    hide Mid, IdsBelow, Indexes, Selected;
    SelectedSplit(c, s);
  }

  lemma SavedDistinct(c: Config, s: State, nKey: nat, asmapVersion: nat)
    requires Indexed(c, s)
    ensures var img := Save(c, s, nKey, asmapVersion);
            DistinctIps(All(img)) && DistinctTried(c, img.triedInfos)
  {
    hide Mid, Save, Written, All, DistinctIps, DistinctTried;
    var img := Save(c, s, nKey, asmapVersion);
    SavedRecords(c, s, nKey, asmapVersion);
    WrittenOnce(c, s);
    DistinctEntries(c, s, Written(s), All(img));
    DistinctSeats(c, s, Written(s), img);
  }

  lemma DistinctEntries(c: Config, s: State, ids: seq<int>, rs: seq<Record>)
    requires Indexed(c, s) && |ids| == |rs| && (forall i, j :: 0 <= i < j < |ids| ==> ids[i] != ids[j])
    requires forall i :: 0 <= i < |ids| ==> ids[i] in s.mapInfo && rs[i] == Saved(s.mapInfo[ids[i]])
    ensures DistinctIps(rs)
  {
    hide RandOk, TriedOk, NewOk, RefOk, CountOk;
    forall i, j | 0 <= i < j < |rs| ensures rs[i].addr.service.ip != rs[j].addr.service.ip {
      assert ids[i] in s.mapInfo && ids[j] in s.mapInfo;
      assert s.mapAddr[s.mapInfo[ids[i]].Ip()] == ids[i] && s.mapAddr[s.mapInfo[ids[j]].Ip()] == ids[j];
    }
  }

  lemma DistinctSeats(c: Config, s: State, ids: seq<int>, img: Image)
    requires Indexed(c, s) && |ids| == |All(img)| && (forall i, j :: 0 <= i < j < |ids| ==> ids[i] != ids[j])
    requires forall i :: 0 <= i < |ids| ==>
               ids[i] in s.mapInfo && All(img)[i] == Saved(s.mapInfo[ids[i]]) && (s.mapInfo[ids[i]].fInTried <==> i >= |img.newInfos|)
    ensures DistinctTried(c, img.triedInfos)
  {
    hide RandOk, NewOk, RefOk, CountOk, Named, TriedSlot;
    var ts, k := img.triedInfos, |img.newInfos|;
    forall i, j | 0 <= i < j < |ts| ensures TriedSlot(c, ts[i].addr.service) != TriedSlot(c, ts[j].addr.service) {
      var m, n := ids[k + i], ids[k + j];
      assert m in s.mapInfo && n in s.mapInfo && m != n && ts[i] == All(img)[k + i] && ts[j] == All(img)[k + j];
      assert s.tried[TriedSlot(c, ts[i].addr.service)] == m && s.tried[TriedSlot(c, ts[j].addr.service)] == n;
    }
  }

  // ------------------------------------------------------------------
  // The stored buckets
  // ------------------------------------------------------------------

  lemma {:induction false} NoteFacts(nNew: int, e: map<int, int>, xs: seq<int>, bucket: int, n: nat)
    requires n <= |xs|
    ensures var e' := Note(nNew, e, xs, bucket, n);
            && (forall i :: i in e' ==> (e'[i] == bucket && i in xs) || (i in e && e'[i] == e[i]))
            && (forall i :: i in e || (i in xs[..n] && 0 <= i < nNew) ==> i in e')
  {
    if n > 0 {
      NoteFacts(nNew, e, xs, bucket, n - 1);
      assert xs[..n] == xs[..n - 1] + [xs[n - 1]];
    }
  }

  lemma {:induction false} EntryNoted(img: Image, b: nat, k: nat, i: int)
    requires k < b <= |img.buckets| && i in img.buckets[k] && 0 <= i < img.nNew
    ensures i in EntryToBucket(img, b)
  {
    var xs := img.buckets[b - 1];
    NoteFacts(img.nNew, EntryToBucket(img, b - 1), xs, b - 1, |xs|);
    assert xs[..|xs|] == xs;
    if k < b - 1 {
      EntryNoted(img, b - 1, k, i);
    }
  }

  lemma {:induction false} EntryWasThere(img: Image, b: nat, i: int)
    requires b <= |img.buckets| && i in EntryToBucket(img, b)
    ensures var k := EntryToBucket(img, b)[i]; 0 <= k < b && i in img.buckets[k]
  {
    var xs := img.buckets[b - 1];
    NoteFacts(img.nNew, EntryToBucket(img, b - 1), xs, b - 1, |xs|);
    if i in EntryToBucket(img, b - 1) {
      EntryWasThere(img, b - 1, i);
    }
  }

  lemma BucketsBelow(img: Image, b: nat)
    requires b <= |img.buckets|
    ensures forall i :: i in EntryToBucket(img, b) ==> 0 <= EntryToBucket(img, b)[i] < b
  {
    forall i | i in EntryToBucket(img, b) ensures 0 <= EntryToBucket(img, b)[i] < b {
      EntryWasThere(img, b, i);
    }
  }

  lemma {:induction false} IndexesFacts(s: State, b: int, n: nat)
    ensures forall p :: 0 <= p < n && (b, p) in s.new_ ==> UnkId(s.mapInfo, s.new_[(b, p)]) in Indexes(s, b, n)
    ensures forall i :: i in Indexes(s, b, n) ==>
              exists p :: 0 <= p < n && (b, p) in s.new_ && UnkId(s.mapInfo, s.new_[(b, p)]) == i
  {
    if n > 0 {
      IndexesFacts(s, b, n - 1);
    }
  }

  /** The id behind the index of an entry in a slot of the new table. */
  lemma SlotIndex(c: Config, s: State, u: Slot) returns (i: nat)
    requires Indexed(c, s) && u in s.new_
    ensures s.nIdCount >= 0 && 0 <= u.0 < c.nNewBuckets && 0 <= u.1 < c.nBucketSize
    ensures s.new_[u] in s.mapInfo && u == NewSlotIn(c, s.mapInfo[s.new_[u]].addr.service, u.0)
    ensures i == UnkId(s.mapInfo, s.new_[u]) && i < s.nNew && s.nNew <= |Written(s)| && Written(s)[i] == s.new_[u]
  {
    SelectedSplit(c, s);
    var id := s.new_[u];
    assert id in s.mapInfo && !s.mapInfo[id].fInTried && 0 <= id < s.nIdCount;
    IdAtIndex(s.mapInfo, false, id, s.nIdCount);
    i := UnkId(s.mapInfo, id);
  }

  /** The stored bucket of new record `i` is one of those its entry was in. */
  lemma StoredSlot(c: Config, s: State, nKey: nat, asmapVersion: nat, i: int)
    requires Indexed(c, s) && 0 <= i < s.nNew
    ensures var img := Save(c, s, nKey, asmapVersion);
            var e := EntryToBucket(img, c.nNewBuckets);
            && s.nIdCount >= 0 && i < |img.newInfos| && i < |Written(s)|
            && i in e && 0 <= e[i] < c.nNewBuckets
            && SlotFor(c, img, e, i) in s.new_ && s.new_[SlotFor(c, img, e, i)] == Written(s)[i]
  {
    hide RandOk, TriedOk, AddrOk, IdsBelow, Indexes, EntryToBucket, CountOk, RefOk;
    var img := Save(c, s, nKey, asmapVersion);
    var e := EntryToBucket(img, c.nNewBuckets);
    SavedRecords(c, s, nKey, asmapVersion);
    WrittenOnce(c, s);
    var b0 := SomeSlot(c, s, nKey, asmapVersion, i);
    EntryNoted(img, c.nNewBuckets, b0, i);
    EntryWasThere(img, c.nNewBuckets, i);
    var b := e[i];
    IndexesFacts(s, b, c.nBucketSize);
    assert i in img.buckets[b];
    var p :| 0 <= p < c.nBucketSize && (b, p) in s.new_ && UnkId(s.mapInfo, s.new_[(b, p)]) == i;
    var i' := SlotIndex(c, s, (b, p));
  }

  /** Every new record has its index in some bucket. */
  lemma SomeSlot(c: Config, s: State, nKey: nat, asmapVersion: nat, i: int) returns (b: nat)
    requires Indexed(c, s) && 0 <= i < s.nNew
    ensures b < c.nNewBuckets && i in Save(c, s, nKey, asmapVersion).buckets[b]
  {
    hide RandOk, TriedOk, NewOk, AddrOk, TimeOk, IdsBelow, Indexes;
    var img := Save(c, s, nKey, asmapVersion);
    SavedRecords(c, s, nKey, asmapVersion);
    WrittenOnce(c, s);
    var id := Written(s)[i];
    assert SlotsOf(s.new_, id) != {};
    var u :| u in SlotsOf(s.new_, id);
    var i' := SlotIndex(c, s, u);
    IndexesFacts(s, u.0, c.nBucketSize);
    b := u.0;
    assert i' in img.buckets[b];
  }

  // ------------------------------------------------------------------
  // A written count never exceeds the size of its table
  // ------------------------------------------------------------------

  lemma {:induction false} RowBound(us: set<Slot>, b: int, n: nat)
    requires forall u :: u in us ==> u.0 == b && 0 <= u.1 < n
    ensures |us| <= n
  {
    if n > 0 {
      var rest := us - {(b, n - 1)};
      RowBound(rest, b, n - 1);
      assert us <= rest + {(b, n - 1)};
      SubsetSize(us, rest + {(b, n - 1)});
    } else {
      assert us == {};
    }
  }

  lemma {:induction false} GridBound(us: set<Slot>, m: nat, n: nat)
    requires forall u :: u in us ==> 0 <= u.0 < m && 0 <= u.1 < n
    ensures |us| <= m * n
  {
    if m > 0 {
      var row := set u | u in us && u.0 == m - 1;
      RowBound(row, m - 1, n);
      GridBound(us - row, m - 1, n);
      assert us == (us - row) + row;
      assert m * n == (m - 1) * n + n;
    } else {
      assert us == {};
    }
  }

  /** Ids that each have a slot of their own are no more than the slots. */
  lemma {:induction false} IdsFit(t: map<Slot, int>, ids: set<int>)
    requires forall id :: id in ids ==> SlotsOf(t, id) != {}
    ensures |ids| <= |t.Keys|
    decreases t.Keys
  {
    if t.Keys == {} {
      forall id ensures id !in ids {
        assert SlotsOf(t, id) == {};
      }
      assert ids == {};
    } else {
      var u :| u in t.Keys;
      var t', rest := t - {u}, ids - {t[u]};
      forall id | id in rest ensures SlotsOf(t', id) != {} {
        assert SlotsOf(t', id) == SlotsOf(t, id);
      }
      IdsFit(t', rest);
      assert t'.Keys == t.Keys - {u};
      SubsetSize(ids, rest + {t[u]});
    }
  }

  lemma CountsFit(c: Config, s: State)
    requires Indexed(c, s)
    ensures s.nNew <= c.nNewBuckets * c.nBucketSize && s.nTried <= c.nTriedBuckets * c.nBucketSize
  {
    var news, trieds := NewIds(s.mapInfo, {}), TriedIds(s.mapInfo);
    forall id | id in news ensures SlotsOf(s.new_, id) != {} {
      assert |SlotsOf(s.new_, id)| >= 1;
    }
    forall id | id in trieds ensures SlotsOf(s.tried, id) != {} {
      assert TriedSlot(c, s.mapInfo[id].addr.service) in SlotsOf(s.tried, id);
    }
    IdsFit(s.new_, news);
    IdsFit(s.tried, trieds);
    GridBound(s.new_.Keys, c.nNewBuckets, c.nBucketSize);
    GridBound(s.tried.Keys, c.nTriedBuckets, c.nBucketSize);
  }

  // ------------------------------------------------------------------
  // The round trip
  // ------------------------------------------------------------------

  lemma SavedSlots(c: Config, s: State, nKey: nat, asmapVersion: nat)
    requires Indexed(c, s)
    ensures var img := Save(c, s, nKey, asmapVersion);
            |img.buckets| == c.nNewBuckets && DistinctSlots(c, img, EntryToBucket(img, c.nNewBuckets))
  {
    var img := Save(c, s, nKey, asmapVersion);
    var e := EntryToBucket(img, c.nNewBuckets);
    SavedRecords(c, s, nKey, asmapVersion);
    WrittenOnce(c, s);
    forall i | 0 <= i < |img.newInfos| ensures i in e && 0 <= e[i] < c.nNewBuckets {
      StoredSlot(c, s, nKey, asmapVersion, i);
    }
    forall i, j | 0 <= i < j < |img.newInfos| ensures SlotFor(c, img, e, i) != SlotFor(c, img, e, j) {
      StoredSlot(c, s, nKey, asmapVersion, i);
      StoredSlot(c, s, nKey, asmapVersion, j);
    }
  }

  lemma SaveAcceptable(env: Env, asmap: Asmap, s: State, nKey: nat)
    requires Indexed(env.hashes(nKey, asmap), s)
    ensures var c := env.hashes(nKey, asmap);
            Acceptable(env, asmap, c, Save(c, s, nKey, AsmapVersion(env, asmap)))
  {
    hide EntryToBucket, DistinctSlots, DistinctIps, DistinctTried, IdsBelow, Indexes;
    var c, v := env.hashes(nKey, asmap), AsmapVersion(env, asmap);
    FlipTwice(c.nNewBuckets);
    CountsFit(c, s);
    SavedRecords(c, s, nKey, v);
    SavedDistinct(c, s, nKey, v);
    SavedSlots(c, s, nKey, v);
  }

  /** The stored content of one of the tables. */
  ghost function Contents(s: State, fTried: bool): set<Record> {
    set n | n in s.mapInfo && s.mapInfo[n].fInTried == fTried :: Saved(s.mapInfo[n])
  }

  /** Every entry is written. */
  lemma WrittenAll(c: Config, s: State, id: int) returns (i: nat)
    requires Indexed(c, s) && id in s.mapInfo
    ensures s.nIdCount >= 0 && i < |Written(s)| && Written(s)[i] == id
  {
    SelectedSplit(c, s);
    var m, n := s.mapInfo, s.nIdCount as nat;
    assert 0 <= id < n;
    if m[id].fInTried {
      IdAtIndex(m, true, id, n);
      i := |IdsBelow(m, false, n)| + |IdsBelow(m, true, id)|;
    } else {
      IdAtIndex(m, false, id, n);
      i := |IdsBelow(m, false, id)|;
    }
  }

  lemma SameContents(c: Config, s: State, nKey: nat, v: nat, s': State, fTried: bool)
    requires Indexed(c, s) && Holds(Save(c, s, nKey, v), s', |All(Save(c, s, nKey, v))|)
    ensures Contents(s', fTried) == Contents(s, fTried)
  {
    hide Mid, IdsBelow, Indexes, Save;
    var img := Save(c, s, nKey, v);
    SavedRecords(c, s, nKey, v);
    WrittenOnce(c, s);
    forall r ensures r in Contents(s', fTried) <==> r in Contents(s, fTried) {
      if r in Contents(s', fTried) {
        var i :| i in s'.mapInfo && s'.mapInfo[i].fInTried == fTried && Saved(s'.mapInfo[i]) == r;
        assert r == Saved(s.mapInfo[Written(s)[i]]);
      }
      if r in Contents(s, fTried) {
        var n :| n in s.mapInfo && s.mapInfo[n].fInTried == fTried && Saved(s.mapInfo[n]) == r;
        var i := WrittenAll(c, s, n);
        assert i as int in s'.mapInfo && Saved(s'.mapInfo[i]) == r;
      }
    }
  }

  /** Each slot of the new table that is filled again held the same entry. */
  lemma SameSlot(c: Config, s: State, nKey: nat, v: nat, s': State, u: Slot)
    requires Indexed(c, s) && u in s'.new_
    requires var img := Save(c, s, nKey, v); Faithful(c, img, EntryToBucket(img, c.nNewBuckets), s')
    ensures u in s.new_ && s'.new_[u] in s'.mapInfo && s.new_[u] in s.mapInfo
    ensures Saved(s'.mapInfo[s'.new_[u]]) == Saved(s.mapInfo[s.new_[u]])
  {
    var img := Save(c, s, nKey, v);
    SavedRecords(c, s, nKey, v);
    var i := s'.new_[u];
    StoredSlot(c, s, nKey, v, i);
    hide Mid, EntryToBucket;
    assert Saved(s'.mapInfo[i]) == All(img)[i];
  }

  /** Writing a manager and reading it back with the same address map loses nothing: the same entries in each
      table, the same counts, indexes that agree, times as fine as they were, and one slot that it had for each new entry. */
  lemma RoundTrip(env: Env, asmap: Asmap, s: State, nKey: nat)
    requires Indexed(env.hashes(nKey, asmap), s)
    ensures var c := env.hashes(nKey, asmap);
            var r := Load(env, asmap, Save(c, s, nKey, AsmapVersion(env, asmap)));
            && r.Some? && var s' := r.value;
            && Indexed(c, s') && (TimeOk(s) ==> TimeOk(s')) && s'.nNew == s.nNew && s'.nTried == s.nTried
            && Contents(s', false) == Contents(s, false) && Contents(s', true) == Contents(s, true)
            && (forall n :: n in s'.mapInfo ==> s'.mapInfo[n].nRefCount == if s'.mapInfo[n].fInTried then 0 else 1)
            && (forall u :: u in s'.new_ ==>
                  && u in s.new_ && s'.new_[u] in s'.mapInfo && s.new_[u] in s.mapInfo
                  && Saved(s'.mapInfo[s'.new_[u]]) == Saved(s.mapInfo[s.new_[u]]))
  {
    hide Load, Save, Acceptable, Mid, Holds, Placed, DistinctSlots, EntryToBucket;
    var c, v := env.hashes(nKey, asmap), AsmapVersion(env, asmap);
    var img := Save(c, s, nKey, v);
    SavedRecords(c, s, nKey, v);
    SaveAcceptable(env, asmap, s, nKey);
    SavedKey(c, s, nKey, v);
    LoadFaithful(env, asmap, c, img);
    var s' := Load(env, asmap, img).value;
    SameContents(c, s, nKey, v, s', false);
    SameContents(c, s, nKey, v, s', true);
    RefsOne(c, img, EntryToBucket(img, c.nNewBuckets), s');
    NeverTried(img, s', |All(img)|);
    if TimeOk(s) {
      SameTimes(s, s');
    }
    forall u | u in s'.new_
      ensures u in s.new_ && s'.new_[u] in s'.mapInfo && s.new_[u] in s.mapInfo
      ensures Saved(s'.mapInfo[s'.new_[u]]) == Saved(s.mapInfo[s.new_[u]])
    {
      SameSlot(c, s, nKey, v, s', u);
    }
  }

  lemma NeverTried(img: Image, s: State, n: nat)
    requires Holds(img, s, n)
    ensures forall i :: i in s.mapInfo ==> s.mapInfo[i].nLastTry == 0
  {
  }

  lemma SameTimes(s: State, s': State)
    requires TimeOk(s) && (forall i :: i in s'.mapInfo ==> s'.mapInfo[i].nLastTry == 0)
    requires Contents(s', false) == Contents(s, false) && Contents(s', true) == Contents(s, true)
    ensures TimeOk(s')
  {
    forall i | i in s'.mapInfo ensures TimesFine(s'.mapInfo[i]) {
      var r := Saved(s'.mapInfo[i]);
      assert r in Contents(s', s'.mapInfo[i].fInTried);
      var n :| n in s.mapInfo && s.mapInfo[n].fInTried == s'.mapInfo[i].fInTried && Saved(s.mapInfo[n]) == r;
      assert TimesFine(s.mapInfo[n]);
    }
  }

  lemma SavedKey(c: Config, s: State, nKey: nat, v: nat)
    ensures Save(c, s, nKey, v).nKey == nKey && |Save(c, s, nKey, v).buckets| == c.nNewBuckets
  {
  }

  lemma RefsOne(c: Config, img: Image, e: map<int, int>, s: State)
    requires Faithful(c, img, e, s)
    ensures forall n :: n in s.mapInfo ==> s.mapInfo[n].nRefCount == if s.mapInfo[n].fInTried then 0 else 1
  {
  }
}
