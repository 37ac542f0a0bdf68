/**
 Reading an image in which an address may occur more than once.  The addresses
 are veiled, so that they differ, under hashes that look through the veil; what
 is read is then the same but for the map of addresses, which is followed here.
 */
module AddrManRepeats {
  import opened Basics
  import opened AddrMan
  import opened AddrManDisk
  import opened AddrManRoundTrip
  import opened AddrManReload

  // ------------------------------------------------------------------
  // The veil
  // ------------------------------------------------------------------

  /** The number that stands for an address is its place among those of the image. */
  function Unveil(ips: seq<NetAddr>, svc: Service): Service { Service(if svc.ip < |ips| then ips[svc.ip] else 0, svc.port) }

  function Ips(img: Image): (ips: seq<NetAddr>)
    ensures |ips| == |All(img)| && forall i :: 0 <= i < |ips| ==> ips[i] == All(img)[i].addr.service.ip
  {
    seq(|All(img)|, i requires 0 <= i < |All(img)| => All(img)[i].addr.service.ip)
  }

  predicate Names(ips: seq<NetAddr>, i: nat, r: Record) { i < |ips| && ips[i] == r.addr.service.ip }

  predicate NamesAll(ips: seq<NetAddr>, at: nat, rs: seq<Record>) { forall i :: 0 <= i < |rs| ==> Names(ips, at + i, rs[i]) }

  lemma NamesAt(ips: seq<NetAddr>, at: nat, rs: seq<Record>, i: nat)
    requires NamesAll(ips, at, rs) && i < |rs|
    ensures Names(ips, at + i, rs[i])
  {
  }

  lemma NamesImage(img: Image)
    ensures NamesAll(Ips(img), 0, img.newInfos) && NamesAll(Ips(img), |img.newInfos|, img.triedInfos)
  {
    assert forall i :: 0 <= i < |img.newInfos| ==> All(img)[i] == img.newInfos[i];
    assert forall i :: 0 <= i < |img.triedInfos| ==> All(img)[|img.newInfos| + i] == img.triedInfos[i];
  }

  function UnveilInfo(ips: seq<NetAddr>, info: AddrInfo): AddrInfo {
    info.(addr := info.addr.(service := Unveil(ips, info.addr.service)))
  }

  function Veil(i: nat, r: Record): Record { r.(addr := r.addr.(service := Service(i, r.addr.service.port))) }

  function VeilAll(at: nat, rs: seq<Record>): (vs: seq<Record>)
    ensures |vs| == |rs| && forall i :: 0 <= i < |rs| ==> vs[i] == Veil(at + i, rs[i])
  {
    seq(|rs|, i requires 0 <= i < |rs| => Veil(at + i, rs[i]))
  }

  /** Hashes that look through the veil. */
  function Through(ips: seq<NetAddr>, c: Config): Config {
    c.(triedBucket := (svc: Service) => c.triedBucket(Unveil(ips, svc)),
       newBucket := (svc: Service, src: NetAddr) => c.newBucket(Unveil(ips, svc), src),
       position := (svc: Service, fNew: bool, b: int) => c.position(Unveil(ips, svc), fNew, b))
  }

  function Veiled(img: Image): Image {
    img.(newInfos := VeilAll(0, img.newInfos), triedInfos := VeilAll(|img.newInfos|, img.triedInfos))
  }

  lemma UnveilVeil(ips: seq<NetAddr>, i: nat, r: Record)
    requires Names(ips, i, r)
    ensures Unveil(ips, Veil(i, r).addr.service) == r.addr.service
    ensures UnveilInfo(ips, Restored(Veil(i, r))) == Restored(r)
  {
  }

  lemma ThroughSlots(ips: seq<NetAddr>, c: Config, svc: Service, source: NetAddr, b: int)
    ensures TriedSlot(Through(ips, c), svc) == TriedSlot(c, Unveil(ips, svc))
    ensures NewSlotIn(Through(ips, c), svc, b) == NewSlotIn(c, Unveil(ips, svc), b)
    ensures NewSlot(Through(ips, c), svc, source) == NewSlot(c, Unveil(ips, svc), source)
  {
  }

  lemma ThroughSized(ips: seq<NetAddr>, c: Config)
    requires Sized(c)
    ensures Sized(Through(ips, c))
  {
    var d := Through(ips, c);
    forall svc ensures 0 <= d.triedBucket(svc) < d.nTriedBuckets {
      assert d.triedBucket(svc) == c.triedBucket(Unveil(ips, svc));
    }
    forall svc, src ensures 0 <= d.newBucket(svc, src) < d.nNewBuckets {
      assert d.newBucket(svc, src) == c.newBucket(Unveil(ips, svc), src);
    }
    forall svc, fNew, b ensures 0 <= d.position(svc, fNew, b) < d.nBucketSize {
      assert d.position(svc, fNew, b) == c.position(Unveil(ips, svc), fNew, b);
    }
  }

  lemma VeiledDistinct(ips: seq<NetAddr>, c: Config, img: Image)
    requires Framed(c, img) && ips == Ips(img)
    ensures Wellformed(Through(ips, c), Veiled(img))
  {
    ThroughSized(ips, c);
    var all := All(Veiled(img));
    forall i, j | 0 <= i < j < |all| ensures all[i].addr.service.ip != all[j].addr.service.ip {
      assert all[i] == Veil(i, All(img)[i]) && all[j] == Veil(j, All(img)[j]);
    }
  }

  // ------------------------------------------------------------------
  // Reading with and without the veil
  // ------------------------------------------------------------------

  /** `t` is `s` behind the veil, whatever their maps of addresses are. */
  ghost predicate Alike(ips: seq<NetAddr>, t: State, s: State) {
    && t.mapInfo.Keys == s.mapInfo.Keys && (forall i :: i in s.mapInfo ==> s.mapInfo[i] == UnveilInfo(ips, t.mapInfo[i]))
    && s == t.(mapInfo := s.mapInfo, mapAddr := s.mapAddr)
  }

  lemma AdmitAlike(ips: seq<NetAddr>, t: State, s: State, id: int, i: nat, r: Record, fTried: bool)
    requires Names(ips, i, r) && Alike(ips, t, s)
    ensures Alike(ips, Admit(t, id, Veil(i, r), fTried), Admit(s, id, r, fTried))
  {
    UnveilVeil(ips, i, r);
  }

  lemma {:induction false} LoadNewAlike(ips: seq<NetAddr>, img: Image, k: nat)
    requires ips == Ips(img) && k <= |img.newInfos|
    ensures Alike(ips, LoadNew(Veiled(img), k), LoadNew(img, k))
  {
    hide Alike, Admit, RandOk, NamesAll, Names, Ips, Veil;
    if k == 0 {
      EmptyAlike(ips, img);
    } else {
      NamesImage(img);
      NamesAt(ips, 0, img.newInfos, k - 1);
      LoadNewAlike(ips, img, k - 1);
      AdmitAlike(ips, LoadNew(Veiled(img), k - 1), LoadNew(img, k - 1), k - 1, k - 1, img.newInfos[k - 1], false);
    }
  }

  lemma EmptyAlike(ips: seq<NetAddr>, img: Image)
    ensures Alike(ips, Empty().(nNew := img.nNew, nTried := img.nTried), Empty().(nNew := img.nNew, nTried := img.nTried))
  {
  }

  lemma AlikeCounts(ips: seq<NetAddr>, t: State, s: State, nIdCount: int, nTried: int)
    requires Alike(ips, t, s)
    ensures Alike(ips, t.(nIdCount := nIdCount, nTried := nTried), s.(nIdCount := nIdCount, nTried := nTried))
    ensures t.nIdCount == s.nIdCount && t.tried == s.tried && t.new_ == s.new_ && t.nTried == s.nTried && t.nNew == s.nNew
    ensures t.mapInfo.Keys == s.mapInfo.Keys
  {
  }

  lemma {:induction false} LoadTriedAlike(ips: seq<NetAddr>, c: Config, img: Image, t: State, s: State, k: nat)
    requires ips == Ips(img) && k <= |img.triedInfos| && Alike(ips, t, s)
    requires RandOk(t) && RandOk(s) && (forall i :: i in t.mapInfo ==> i < t.nIdCount) && (forall i :: i in s.mapInfo ==> i < s.nIdCount)
    ensures var x, y := LoadTried(Through(ips, c), Veiled(img), t, k), LoadTried(c, img, s, k);
            x.1 == y.1 && Alike(ips, x.0, y.0)
  {
    hide Alike, Admit, RandOk, TriedSlot, Through, Unveil, LoadTried, UnveilInfo, Veil, WithSlot, NamesAll, Names, Ips;
    if k == 0 {
      LoadTriedNone(Through(ips, c), Veiled(img), t);
      LoadTriedNone(c, img, s);
    } else {
      LoadTriedAlike(ips, c, img, t, s, k - 1);
      var x, y := LoadTried(Through(ips, c), Veiled(img), t, k - 1), LoadTried(c, img, s, k - 1);
      LoadTriedNext(Through(ips, c), Veiled(img), t, k - 1, x.0, x.1);
      LoadTriedNext(c, img, s, k - 1, y.0, y.1);
      var i, r := |img.newInfos| + (k - 1), img.triedInfos[k - 1];
      NamesImage(img);
      NamesAt(ips, |img.newInfos|, img.triedInfos, k - 1);
      UnveilVeil(ips, i, r);
      ThroughSlots(ips, c, Veil(i, r).addr.service, 0, 0);
      AlikeCounts(ips, x.0, y.0, x.0.nIdCount, x.0.nTried);
      AdmitAlike(ips, x.0, y.0, x.0.nIdCount, i, r, true);
      var u := TriedSlot(c, r.addr.service);
      AlikeSlot(ips, Admit(x.0, x.0.nIdCount, Veil(i, r), true), Admit(y.0, y.0.nIdCount, r, true),
                WithSlot(y.0.tried, u, y.0.nIdCount), y.0.nIdCount + 1);
    }
  }

  lemma AlikeSlot(ips: seq<NetAddr>, t: State, s: State, tried: map<Slot, int>, nIdCount: int)
    requires Alike(ips, t, s)
    ensures Alike(ips, t.(tried := tried, nIdCount := nIdCount), s.(tried := tried, nIdCount := nIdCount))
  {
  }

  lemma TakeAlike(ips: seq<NetAddr>, t: State, s: State, u: Slot, id: int)
    requires Alike(ips, t, s) && id in t.mapInfo
    ensures id in s.mapInfo && Alike(ips, TakeSlot(t, u, id), TakeSlot(s, u, id))
  {
  }

  lemma PlaceOneAlike(ips: seq<NetAddr>, c: Config, t: State, s: State, e: map<int, int>, reuse: bool, id: int)
    requires Alike(ips, t, s) && id in t.mapInfo && RandOk(t) && RandOk(s)
    ensures id in s.mapInfo && Alike(ips, PlaceOne(Through(ips, c), t, e, reuse, id), PlaceOne(c, s, e, reuse, id))
  {
    hide RandOk, Through, TakeSlot, NewSlot, NewSlotIn;
    var info := t.mapInfo[id];
    var b := if id in e then e[id] else 0;
    ThroughSlots(ips, c, info.addr.service, info.source, b);
    TakeAlike(ips, t, s, NewSlotIn(Through(ips, c), info.addr.service, b), id);
    TakeAlike(ips, t, s, NewSlot(Through(ips, c), info.addr.service, info.source), id);
  }

  lemma PlaceAllNext(c: Config, s: State, e: map<int, int>, reuse: bool, k: nat)
    requires RandOk(s) && k > 0 && forall i :: 0 <= i < k ==> i in s.mapInfo
    ensures var s1 := PlaceAll(c, s, e, reuse, k - 1);
            k - 1 in s1.mapInfo && PlaceAll(c, s, e, reuse, k) == PlaceOne(c, s1, e, reuse, k - 1)
  {
    hide RandOk, PlaceOne;
    assert k - 1 in s.mapInfo.Keys;
  }

  lemma PlaceAllNone(c: Config, s: State, e: map<int, int>, reuse: bool)
    requires RandOk(s)
    ensures PlaceAll(c, s, e, reuse, 0) == s
  {
  }

  lemma {:induction false} PlaceAllAlike(ips: seq<NetAddr>, c: Config, t: State, s: State, e: map<int, int>, reuse: bool, k: nat)
    requires Alike(ips, t, s) && RandOk(t) && RandOk(s)
    requires forall i :: 0 <= i < k ==> i in t.mapInfo && i in s.mapInfo
    ensures Alike(ips, PlaceAll(Through(ips, c), t, e, reuse, k), PlaceAll(c, s, e, reuse, k))
  {
    hide RandOk, Through, PlaceOne, Alike, PlaceAll;
    if k == 0 {
      PlaceAllNone(Through(ips, c), t, e, reuse);
      PlaceAllNone(c, s, e, reuse);
    } else {
      PlaceAllAlike(ips, c, t, s, e, reuse, k - 1);
      var t1, s1 := PlaceAll(Through(ips, c), t, e, reuse, k - 1), PlaceAll(c, s, e, reuse, k - 1);
      PlaceAllNext(Through(ips, c), t, e, reuse, k);
      PlaceAllNext(c, s, e, reuse, k);
      PlaceOneAlike(ips, c, t1, s1, e, reuse, k - 1);
    }
  }

  lemma DeleteAlike(ips: seq<NetAddr>, t: State, s: State, id: int)
    requires Alike(ips, t, s) && id in t.mapInfo && RandOk(t) && RandOk(s)
    ensures id in s.mapInfo && Alike(ips, Delete(t, id), Delete(s, id))
  {
    hide SwapRandom, RandOk, Unveil, UnveilInfo;
    AlikeAt(ips, t, s, id);
    RandPlaces(t, id);
    RandPlaces(s, id);
    var i, last := t.mapInfo[id].nRandomPos, |t.vRandom| - 1;
    SwapAlike(ips, t, s, i, last);
    SwapRandOk(t, i, last);
  }

  lemma SwapAlike(ips: seq<NetAddr>, t: State, s: State, i: int, j: int)
    requires Alike(ips, t, s) && 0 <= i < |t.vRandom| && 0 <= j < |t.vRandom|
    requires t.vRandom[i] in t.mapInfo && t.vRandom[j] in t.mapInfo && s.vRandom[i] in s.mapInfo && s.vRandom[j] in s.mapInfo
    ensures Alike(ips, SwapRandom(t, i, j), SwapRandom(s, i, j))
  {
    hide Unveil;
  }

  lemma {:induction false} PruneAlike(ips: seq<NetAddr>, t: State, s: State, hi: nat)
    requires Alike(ips, t, s) && RandOk(t) && RandOk(s)
    ensures Alike(ips, Prune(t, 0, hi), Prune(s, 0, hi))
  {
    hide RandOk, Delete;
    if hi > 0 {
      PruneAlike(ips, t, s, hi - 1);
      var t1, s1 := Prune(t, 0, hi - 1), Prune(s, 0, hi - 1);
      if hi - 1 in t1.mapInfo {
        DeleteAlike(ips, t1, s1, hi - 1);
      }
    }
  }

  lemma {:induction false} BucketsVeiled(img: Image, b: nat)
    requires b <= |img.buckets|
    ensures EntryToBucket(Veiled(img), b) == EntryToBucket(img, b)
  {
    if b > 0 {
      BucketsVeiled(img, b - 1);
    }
  }

  function ThroughEnv(ips: seq<NetAddr>, env: Env): Env {
    env.(hashes := (k: nat, asmap: Asmap) => Through(ips, env.hashes(k, asmap)))
  }

  /** What the image has to be for reading to get as far as its entries. */
  ghost predicate Admissible(env: Env, asmap: Asmap, c: Config, img: Image) {
    && c == env.hashes(img.nKey, asmap) && Framed(c, img) && img.nKeySize == KEY_SIZE && UBuckets(img) <= |img.buckets|
    && img.nNew <= c.nNewBuckets * c.nBucketSize && img.nTried <= c.nTriedBuckets * c.nBucketSize
  }

  /** The stages of reading: the entries, their slots, and what is left. */
  lemma LoadStages(env: Env, asmap: Asmap, c: Config, img: Image) returns (s1: State, s2: State, s3: State)
    requires Admissible(env, asmap, c, img)
    ensures s1 == LoadNew(img, |img.newInfos|).(nIdCount := img.nNew) && RandOk(s1)
    ensures forall i :: i in s1.mapInfo <==> 0 <= i < s1.nIdCount
    ensures var (r, nLost) := LoadTried(c, img, s1, |img.triedInfos|); s2 == r.(nTried := img.nTried - nLost)
    ensures RandOk(s2) && (forall i :: i in s2.mapInfo <==> 0 <= i < s2.nIdCount) && s1.nIdCount <= s2.nIdCount
    ensures s3 == PlaceAll(c, s2, EntryToBucket(img, AtLeastZero(UBuckets(img))), Reusable(env, asmap, c, img), |img.newInfos|)
    ensures RandOk(s3) && s3.mapInfo.Keys == s2.mapInfo.Keys && s3.nIdCount == s2.nIdCount
    ensures Load(env, asmap, img) == Some(Prune(s3, 0, s3.nIdCount))
  {
    hide RandOk, LoadNew, LoadTried, PlaceAll, Prune, EntryToBucket, Reusable;
    s1 := LoadNew(img, |img.newInfos|).(nIdCount := img.nNew);
    RandSame(LoadNew(img, |img.newInfos|), s1);
    var (r, nLost) := LoadTried(c, img, s1, |img.triedInfos|);
    s2 := r.(nTried := img.nTried - nLost);
    RandSame(r, s2);
    s3 := PlaceAll(c, s2, EntryToBucket(img, AtLeastZero(UBuckets(img))), Reusable(env, asmap, c, img), |img.newInfos|);
    PlaceAllCount(c, s2, EntryToBucket(img, AtLeastZero(UBuckets(img))), Reusable(env, asmap, c, img), |img.newInfos|);
  }

  /** Placing entries leaves the map of addresses, the ids and the addresses alone. */
  lemma {:induction false} PlaceAllCount(c: Config, s: State, e: map<int, int>, reuse: bool, k: nat)
    requires RandOk(s) && forall i :: 0 <= i < k ==> i in s.mapInfo
    ensures var s' := PlaceAll(c, s, e, reuse, k);
            && s'.nIdCount == s.nIdCount && s'.mapAddr == s.mapAddr && s'.mapInfo.Keys == s.mapInfo.Keys
            && forall i :: i in s.mapInfo ==> s'.mapInfo[i].addr == s.mapInfo[i].addr
  {
    hide RandOk, PlaceOne, PlaceAll;
    if k == 0 {
      PlaceAllNone(c, s, e, reuse);
    } else {
      PlaceAllCount(c, s, e, reuse, k - 1);
      PlaceAllNext(c, s, e, reuse, k);
      PlaceOneCount(c, PlaceAll(c, s, e, reuse, k - 1), e, reuse, k - 1);
    }
  }

  lemma PlaceOneCount(c: Config, s: State, e: map<int, int>, reuse: bool, id: int)
    requires RandOk(s) && id in s.mapInfo
    ensures var s' := PlaceOne(c, s, e, reuse, id);
            && s'.nIdCount == s.nIdCount && s'.mapAddr == s.mapAddr
            && forall i :: i in s.mapInfo ==> s'.mapInfo[i].addr == s.mapInfo[i].addr
  {
    hide RandOk, NewSlot, NewSlotIn;
  }

  /** The two readings, stage by stage. */
  lemma LoadAlike(ips: seq<NetAddr>, env: Env, asmap: Asmap, c: Config, img: Image) returns (t: State, s: State)
    requires ips == Ips(img) && Admissible(env, asmap, c, img)
    ensures Admissible(ThroughEnv(ips, env), asmap, Through(ips, c), Veiled(img))
    ensures Load(ThroughEnv(ips, env), asmap, Veiled(img)) == Some(t) && Load(env, asmap, img) == Some(s) && Alike(ips, t, s)
  {
    hide Alike, RandOk, LoadNew, LoadTried, PlaceAll, Prune, EntryToBucket, Load;
    var b := AtLeastZero(UBuckets(img));
    VeiledAdmissible(ips, env, asmap, c, img);
    BucketsVeiled(img, b);
    var t1, t2, t3 := LoadStages(ThroughEnv(ips, env), asmap, Through(ips, c), Veiled(img));
    var s1, s2, s3 := LoadStages(env, asmap, c, img);
    LoadNewAlike(ips, img, |img.newInfos|);
    AlikeCounts(ips, LoadNew(Veiled(img), |img.newInfos|), LoadNew(img, |img.newInfos|), img.nNew, t1.nTried);
    LoadTriedAlike(ips, c, img, t1, s1, |img.triedInfos|);
    var x, y := LoadTried(Through(ips, c), Veiled(img), t1, |img.triedInfos|), LoadTried(c, img, s1, |img.triedInfos|);
    AlikeCounts(ips, x.0, y.0, x.0.nIdCount, img.nTried - x.1);
    PlaceAllAlike(ips, c, t2, s2, EntryToBucket(img, b), Reusable(env, asmap, c, img), |img.newInfos|);
    AlikeCounts(ips, t3, s3, t3.nIdCount, t3.nTried);
    PruneAlike(ips, t3, s3, t3.nIdCount);
    t, s := Prune(t3, 0, t3.nIdCount), Prune(s3, 0, s3.nIdCount);
  }

  lemma VeiledAdmissible(ips: seq<NetAddr>, env: Env, asmap: Asmap, c: Config, img: Image)
    requires ips == Ips(img) && Admissible(env, asmap, c, img)
    ensures Admissible(ThroughEnv(ips, env), asmap, Through(ips, c), Veiled(img))
    ensures Reusable(ThroughEnv(ips, env), asmap, Through(ips, c), Veiled(img)) == Reusable(env, asmap, c, img)
    ensures UBuckets(Veiled(img)) == UBuckets(img)
  {
    hide Sized;
    ThroughSized(ips, c);
  }

  // ------------------------------------------------------------------
  // What agrees without the veil
  // ------------------------------------------------------------------

  /** All but the map of addresses. */
  lemma AlikeIndexed(ips: seq<NetAddr>, c: Config, t: State, s: State)
    requires Sized(c) && Alike(ips, t, s) && Indexed(Through(ips, c), t)
    ensures Indexed(c, s) <==> AddrOk(s)
  {
    hide Through, AddrOk, SlotsOf;
    AlikeTables(ips, c, t, s);
    AlikeRand(ips, t, s);
    AlikeIds(ips, t, s);
  }

  lemma AlikeIds(ips: seq<NetAddr>, t: State, s: State)
    requires Alike(ips, t, s)
    ensures TriedIds(t.mapInfo) == TriedIds(s.mapInfo) && NewIds(t.mapInfo, {}) == NewIds(s.mapInfo, {})
  {
    hide Unveil;
    forall i | i in s.mapInfo ensures s.mapInfo[i].fInTried == t.mapInfo[i].fInTried {
      assert s.mapInfo[i] == UnveilInfo(ips, t.mapInfo[i]);
    }
  }

  lemma AlikeRand(ips: seq<NetAddr>, t: State, s: State)
    requires Alike(ips, t, s) && RandOk(t)
    ensures RandOk(s)
  {
  }

  lemma AlikeAt(ips: seq<NetAddr>, t: State, s: State, i: int)
    requires Alike(ips, t, s) && i in t.mapInfo
    ensures i in s.mapInfo && s.mapInfo[i].fInTried == t.mapInfo[i].fInTried && s.mapInfo[i].nRandomPos == t.mapInfo[i].nRandomPos
    ensures s.mapInfo[i].addr.service == Unveil(ips, t.mapInfo[i].addr.service)
  {
    assert i in t.mapInfo.Keys;
    assert s.mapInfo[i] == UnveilInfo(ips, t.mapInfo[i]);
  }

  lemma AlikeTables(ips: seq<NetAddr>, c: Config, t: State, s: State)
    requires Alike(ips, t, s) && TriedOk(Through(ips, c), t) && NewOk(Through(ips, c), t)
    ensures TriedOk(c, s) && NewOk(c, s)
  {
    hide Through, TriedSlot, NewSlotIn, Unveil, Alike;
    AlikeCounts(ips, t, s, t.nIdCount, t.nTried);
    forall u | u in s.tried
      ensures s.tried[u] in s.mapInfo && s.mapInfo[s.tried[u]].fInTried && u == TriedSlot(c, s.mapInfo[s.tried[u]].addr.service)
    {
      AlikeAt(ips, t, s, t.tried[u]);
      ThroughSlots(ips, c, t.mapInfo[t.tried[u]].addr.service, 0, 0);
    }
    forall m | m in s.mapInfo && s.mapInfo[m].fInTried
      ensures var u := TriedSlot(c, s.mapInfo[m].addr.service); u in s.tried && s.tried[u] == m
    {
      AlikeAt(ips, t, s, m);
      ThroughSlots(ips, c, t.mapInfo[m].addr.service, 0, 0);
    }
    forall u | u in s.new_
      ensures 0 <= u.0 < c.nNewBuckets && s.new_[u] in s.mapInfo && !s.mapInfo[s.new_[u]].fInTried
              && u == NewSlotIn(c, s.mapInfo[s.new_[u]].addr.service, u.0)
    {
      AlikeAt(ips, t, s, t.new_[u]);
      ThroughSlots(ips, c, t.mapInfo[t.new_[u]].addr.service, 0, u.0);
      ThroughCount(ips, c);
    }
  }

  lemma ThroughCount(ips: seq<NetAddr>, c: Config)
    ensures Through(ips, c).nNewBuckets == c.nNewBuckets
  {
  }

  lemma SlotsVeiled(ips: seq<NetAddr>, c: Config, at: nat, rs: seq<Record>, e: map<int, int>, i: nat)
    requires NamesAll(ips, at, rs) && i < |rs|
    ensures var vs := VeilAll(at, rs);
            && TriedSlot(Through(ips, c), vs[i].addr.service) == TriedSlot(c, rs[i].addr.service)
            && NotedSlot(Through(ips, c), vs, e, i) == NotedSlot(c, rs, e, i)
            && SourceSlot(Through(ips, c), vs, i) == SourceSlot(c, rs, i)
  {
    hide Through, Unveil, Veil, NamesAll, Names;
    NamesAt(ips, at, rs, i);
    UnveilVeil(ips, at + i, rs[i]);
    VeilSource(at + i, rs[i]);
    ThroughSlots(ips, c, Veil(at + i, rs[i]).addr.service, rs[i].source, if i in e then e[i] else 0);
  }

  lemma VeilSource(i: nat, r: Record)
    ensures Veil(i, r).source == r.source
  {
  }

  lemma {:induction false} SeatsVeiled(ips: seq<NetAddr>, c: Config, rs: seq<Record>, e: map<int, int>, reuse: bool, k: nat)
    requires NamesAll(ips, 0, rs) && k <= |rs|
    ensures Seats(Through(ips, c), VeilAll(0, rs), e, reuse, k) == Seats(c, rs, e, reuse, k)
  {
    hide Through, VeilAll, NotedSlot, SourceSlot, NamesAll;
    if k > 0 {
      SeatsVeiled(ips, c, rs, e, reuse, k - 1);
      SlotsVeiled(ips, c, 0, rs, e, k - 1);
    }
  }

  lemma SeatedVeiled(ips: seq<NetAddr>, c: Config, rs: seq<Record>, e: map<int, int>, reuse: bool, i: nat)
    requires NamesAll(ips, 0, rs) && i < |rs|
    ensures Seated(Through(ips, c), VeilAll(0, rs), e, reuse, i) == Seated(c, rs, e, reuse, i)
  {
    hide Through, VeilAll, NotedSlot, SourceSlot, Seats, NamesAll;
    SeatsVeiled(ips, c, rs, e, reuse, i);
    SlotsVeiled(ips, c, 0, rs, e, i);
  }

  lemma FirstVeiled(ips: seq<NetAddr>, c: Config, at: nat, rs: seq<Record>, j: nat)
    requires NamesAll(ips, at, rs) && j < |rs|
    ensures FirstInSlot(Through(ips, c), VeilAll(at, rs), j) == FirstInSlot(c, rs, j)
  {
    hide Through, VeilAll, TriedSlot, NotedSlot, SourceSlot, NamesAll;
    forall i | 0 <= i <= j
      ensures TriedSlot(Through(ips, c), VeilAll(at, rs)[i].addr.service) == TriedSlot(c, rs[i].addr.service)
    {
      SlotsVeiled(ips, c, at, rs, map[], i);
    }
  }

  lemma {:induction false} FirstIdsVeiled(ips: seq<NetAddr>, c: Config, at: nat, rs: seq<Record>, k: nat)
    requires NamesAll(ips, at, rs) && k <= |rs|
    ensures FirstIds(Through(ips, c), VeilAll(at, rs), k) == FirstIds(c, rs, k)
  {
    hide Through, VeilAll, FirstInSlot, NamesAll;
    if k > 0 {
      FirstIdsVeiled(ips, c, at, rs, k - 1);
      FirstVeiled(ips, c, at, rs, k - 1);
    }
  }

  lemma SurvivorUnveiled(ips: seq<NetAddr>, c: Config, img: Image, e: map<int, int>, reuse: bool, t: State, s: State, i: int)
    requires ips == Ips(img) && Alike(ips, t, s) && SurvivorAt(Through(ips, c), Veiled(img), e, reuse, t, i)
    ensures SurvivorAt(c, img, e, reuse, s, i)
  {
    hide Through, VeilAll, FirstIds, Seated, Unveil, Veil, NamesAll, Names, Ips;
    var us, rs := img.newInfos, img.triedInfos;
    NamesImage(img);
    FirstIdsVeiled(ips, c, |us|, rs, |rs|);
    if 0 <= i < |us| {
      SeatedVeiled(ips, c, us, e, reuse, i);
    }
    if i in s.mapInfo {
      var ids := FirstIds(c, rs, |rs|);
      if i < |us| {
        NamesAt(ips, 0, us, i);
        SavedUnveiled(ips, i, us[i], t.mapInfo[i]);
      } else {
        NamesAt(ips, |us|, rs, ids[i - |us|]);
        SavedUnveiled(ips, |us| + ids[i - |us|], rs[ids[i - |us|]], t.mapInfo[i]);
      }
    }
  }

  lemma SavedUnveiled(ips: seq<NetAddr>, i: nat, r: Record, info: AddrInfo)
    requires Names(ips, i, r) && Saved(info) == Veil(i, r)
    ensures Saved(UnveilInfo(ips, info)) == r
  {
    UnveilVeil(ips, i, r);
  }

  lemma SurvivedUnveiled(ips: seq<NetAddr>, c: Config, img: Image, e: map<int, int>, reuse: bool, t: State, s: State)
    requires ips == Ips(img) && Alike(ips, t, s) && Survived(Through(ips, c), Veiled(img), e, reuse, t)
    ensures Survived(c, img, e, reuse, s)
  {
    hide Alike, Through, Contents, Seats, SurvivorAt, NamesAll, Ips;
    forall i ensures SurvivorAt(c, img, e, reuse, s, i) {
      SurvivorUnveiled(ips, c, img, e, reuse, t, s, i);
    }
    AlikeCounts(ips, t, s, t.nIdCount, t.nTried);
    NamesImage(img);
    SeatsVeiled(ips, c, img.newInfos, e, reuse, |img.newInfos|);
    NewSurvivors(c, img, e, reuse, s);
    TriedSurvivors(c, img, e, reuse, s);
  }

  // ------------------------------------------------------------------
  // The map of addresses
  // ------------------------------------------------------------------

  /** Every address leads to the last entry that has it. */
  ghost predicate Latest(s: State) {
    && (forall i :: i in s.mapInfo ==> s.mapInfo[i].Ip() in s.mapAddr && i <= s.mapAddr[s.mapInfo[i].Ip()])
    && (forall a :: a in s.mapAddr ==> s.mapAddr[a] in s.mapInfo && s.mapInfo[s.mapAddr[a]].Ip() == a)
  }

  lemma AdmitLatest(s: State, id: int, r: Record, fTried: bool)
    requires Latest(s) && forall i :: i in s.mapInfo ==> i < id
    ensures Latest(Admit(s, id, r, fTried))
  {
  }

  lemma {:induction false} LoadNewLatest(img: Image, k: nat)
    requires k <= |img.newInfos|
    ensures Latest(LoadNew(img, k))
  {
    hide RandOk, Admit, Latest;
    if k == 0 {
      EmptyLatest(img);
    } else {
      LoadNewLatest(img, k - 1);
      AdmitLatest(LoadNew(img, k - 1), k - 1, img.newInfos[k - 1], false);
    }
  }

  lemma EmptyLatest(img: Image)
    ensures Latest(Empty().(nNew := img.nNew, nTried := img.nTried))
  {
  }

  lemma LatestFrame(s: State, s': State)
    requires Latest(s) && s'.mapAddr == s.mapAddr && s'.mapInfo.Keys == s.mapInfo.Keys
    requires forall i :: i in s.mapInfo ==> s'.mapInfo[i].addr == s.mapInfo[i].addr
    ensures Latest(s')
  {
    assert forall i :: i in s'.mapInfo ==> i in s'.mapInfo.Keys;
  }

  lemma {:induction false} LoadTriedLatest(c: Config, img: Image, s: State, k: nat)
    requires k <= |img.triedInfos| && RandOk(s) && (forall i :: i in s.mapInfo ==> i < s.nIdCount) && Latest(s)
    ensures Latest(LoadTried(c, img, s, k).0)
  {
    hide RandOk, Latest, LoadTried, TriedSlot, WithSlot, Admit;
    if k == 0 {
      LoadTriedNone(c, img, s);
    } else {
      LoadTriedLatest(c, img, s, k - 1);
      var (s1, nLost) := LoadTried(c, img, s, k - 1);
      LoadTriedNext(c, img, s, k - 1, s1, nLost);
      var r := img.triedInfos[k - 1];
      AdmitLatest(s1, s1.nIdCount, r, true);
      var a := Admit(s1, s1.nIdCount, r, true);
      LatestFrame(a, a.(tried := WithSlot(s1.tried, TriedSlot(c, r.addr.service), s1.nIdCount), nIdCount := s1.nIdCount + 1));
    }
  }

  /** An entry with this address is gone. */
  ghost predicate Gone(s: State, s': State, a: NetAddr) {
    exists i :: i in s.mapInfo && i !in s'.mapInfo && s.mapInfo[i].Ip() == a
  }

  /** Some entries are gone, and with them their addresses. */
  ghost predicate Fewer(s: State, s': State) {
    && (forall i :: i in s'.mapInfo ==> i in s.mapInfo && s'.mapInfo[i].addr == s.mapInfo[i].addr)
    && (forall a :: a in s'.mapAddr <==> a in s.mapAddr && !Gone(s, s', a))
    && (forall a :: a in s'.mapAddr ==> s'.mapAddr[a] == s.mapAddr[a])
  }

  lemma DeleteAddrs(s: State, id: int)
    requires RandOk(s) && id in s.mapInfo
    ensures var s' := Delete(s, id);
            && s'.mapInfo.Keys == s.mapInfo.Keys - {id} && s'.mapAddr == s.mapAddr - {s.mapInfo[id].Ip()}
            && forall i :: i in s'.mapInfo ==> s'.mapInfo[i].addr == s.mapInfo[i].addr
  {
    hide SwapRandom, RandOk;
    RandPlaces(s, id);
    SwapRandOk(s, s.mapInfo[id].nRandomPos, |s.vRandom| - 1);
    SwapAddrs(s, s.mapInfo[id].nRandomPos, |s.vRandom| - 1);
  }

  lemma RandPlaces(s: State, id: int)
    requires RandOk(s) && id in s.mapInfo
    ensures 0 <= s.mapInfo[id].nRandomPos < |s.vRandom| && s.vRandom[s.mapInfo[id].nRandomPos] in s.mapInfo
    ensures s.vRandom[|s.vRandom| - 1] in s.mapInfo
  {
  }

  lemma SwapAddrs(s: State, i: int, j: int)
    requires 0 <= i < |s.vRandom| && 0 <= j < |s.vRandom| && s.vRandom[i] in s.mapInfo && s.vRandom[j] in s.mapInfo
    ensures SwapRandom(s, i, j).mapAddr == s.mapAddr
  {
  }

  lemma FewerNext(s: State, s1: State, s': State, id: int)
    requires Fewer(s, s1) && id in s1.mapInfo
    requires s'.mapInfo.Keys == s1.mapInfo.Keys - {id} && s'.mapAddr == s1.mapAddr - {s1.mapInfo[id].Ip()}
    requires forall i :: i in s'.mapInfo ==> s'.mapInfo[i].addr == s1.mapInfo[i].addr
    ensures Fewer(s, s')
  {
    forall i | i in s'.mapInfo ensures i in s.mapInfo && s'.mapInfo[i].addr == s.mapInfo[i].addr {
      assert i in s'.mapInfo.Keys;
    }
    forall a ensures Gone(s, s', a) <==> Gone(s, s1, a) || a == s.mapInfo[id].Ip() {
      GoneNext(s, s1, s', id, a);
    }
  }

  lemma GoneNext(s: State, s1: State, s': State, id: int, a: NetAddr)
    requires id in s1.mapInfo && id in s.mapInfo && s'.mapInfo.Keys == s1.mapInfo.Keys - {id}
    ensures Gone(s, s', a) <==> Gone(s, s1, a) || a == s.mapInfo[id].Ip()
  {
    assert forall i :: i in s'.mapInfo <==> i in s1.mapInfo && i != id by {
      assert forall i :: i in s'.mapInfo <==> i in s'.mapInfo.Keys;
    }
  }

  lemma {:induction false} PruneFewer(s: State, hi: nat)
    requires RandOk(s)
    ensures Fewer(s, Prune(s, 0, hi))
  {
    hide RandOk, Delete, Fewer;
    if hi == 0 {
      NoneFewer(s);
    } else {
      PruneFewer(s, hi - 1);
      var s1 := Prune(s, 0, hi - 1);
      if hi - 1 in s1.mapInfo {
        DeleteAddrs(s1, hi - 1);
        FewerNext(s, s1, Delete(s1, hi - 1), hi - 1);
      }
    }
  }

  lemma NoneFewer(s: State)
    ensures Fewer(s, s)
  {
  }

  /** Two entries with the same address. */
  ghost predicate Twins(s: State, i: int, j: int) {
    i in s.mapInfo && j in s.mapInfo && i != j && s.mapInfo[i].Ip() == s.mapInfo[j].Ip()
  }

  /** The map of addresses is right exactly when no entry is left whose address another entry had. */
  lemma AddrsExactly(s: State, s': State)
    requires Latest(s) && Fewer(s, s')
    ensures AddrOk(s') <==> forall i, j :: Twins(s, i, j) ==> i !in s'.mapInfo
  {
    if AddrOk(s') {
      forall i, j | Twins(s, i, j) ensures i !in s'.mapInfo {
        TwinGone(s, s', i, j);
      }
    }
    if forall i, j :: Twins(s, i, j) ==> i !in s'.mapInfo {
      forall i | i in s'.mapInfo ensures s'.mapInfo[i].Ip() in s'.mapAddr && s'.mapAddr[s'.mapInfo[i].Ip()] == i {
        LoneFound(s, s', i);
      }
      forall a | a in s'.mapAddr ensures s'.mapAddr[a] in s'.mapInfo && s'.mapInfo[s'.mapAddr[a]].Ip() == a {
        assert s.mapAddr[a] in s.mapInfo && s.mapInfo[s.mapAddr[a]].Ip() == a && !Gone(s, s', a);
      }
    }
  }

  lemma TwinGone(s: State, s': State, i: int, j: int)
    requires Fewer(s, s') && AddrOk(s') && Twins(s, i, j)
    ensures i !in s'.mapInfo
  {
    var a := s.mapInfo[i].Ip();
    if j in s'.mapInfo {
      assert s'.mapInfo[j].Ip() == a && s'.mapAddr[a] == j;
    } else {
      assert Gone(s, s', a) && a !in s'.mapAddr;
    }
  }

  lemma LoneFound(s: State, s': State, i: int)
    requires Latest(s) && Fewer(s, s') && i in s'.mapInfo && forall k, j :: Twins(s, k, j) ==> k !in s'.mapInfo
    ensures s'.mapInfo[i].Ip() in s'.mapAddr && s'.mapAddr[s'.mapInfo[i].Ip()] == i
  {
    var a := s.mapInfo[i].Ip();
    var m := s.mapAddr[a];
    assert m in s.mapInfo && s.mapInfo[m].Ip() == a;
    assert m != i ==> Twins(s, i, m);
    forall k | k in s.mapInfo && s.mapInfo[k].Ip() == a ensures k == i {
      assert k != i ==> Twins(s, i, k);
    }
    assert !Gone(s, s', a);
  }

  // ------------------------------------------------------------------
  // Every image
  // ------------------------------------------------------------------

  /** The records that become entries, in the order of their ids. */
  function Admitted(c: Config, img: Image): seq<Record> { All(Thinned(c, img)) }

  /** No record whose address another admitted record has finds a slot. */
  ghost predicate RepeatsGone(c: Config, img: Image, e: map<int, int>, reuse: bool) {
    var rs := Admitted(c, img);
    forall i, j :: 0 <= i < |rs| && 0 <= j < |rs| && i != j && rs[i].addr.service.ip == rs[j].addr.service.ip ==>
      i < |img.newInfos| && !Seated(c, img.newInfos, e, reuse, i)
  }

  lemma {:induction false} NewAdmitted(img: Image, k: nat)
    requires k <= |img.newInfos|
    ensures forall i :: 0 <= i < k ==> LoadNew(img, k).mapInfo[i].addr == img.newInfos[i].addr
  {
    hide RandOk;
    if k > 0 {
      NewAdmitted(img, k - 1);
    }
  }

  /** `s'` has the entries of `s`, and after them those of the records named by `ids`. */
  ghost predicate Joined(s: State, s': State, rs: seq<Record>, ids: seq<nat>)
    requires forall j :: 0 <= j < |ids| ==> ids[j] < |rs|
  {
    && s'.nIdCount == s.nIdCount + |ids|
    && (forall i :: i in s.mapInfo ==> i in s'.mapInfo && s'.mapInfo[i].addr == s.mapInfo[i].addr)
    && (forall j :: 0 <= j < |ids| ==> JoinedAt(s', s.nIdCount + j, rs[ids[j]]))
  }

  ghost predicate JoinedAt(s: State, id: int, r: Record) { id in s.mapInfo && s.mapInfo[id].addr == r.addr }

  lemma JoinOne(s: State, s1: State, rs: seq<Record>, ids: seq<nat>, k: nat, tried: map<Slot, int>)
    requires (forall j :: 0 <= j < |ids| ==> ids[j] < |rs|) && k < |rs| && Joined(s, s1, rs, ids)
    requires forall i :: i in s.mapInfo ==> i < s.nIdCount
    ensures Joined(s, Admit(s1, s1.nIdCount, rs[k], true).(tried := tried, nIdCount := s1.nIdCount + 1), rs, ids + [k])
  {
    var s', more := Admit(s1, s1.nIdCount, rs[k], true).(tried := tried, nIdCount := s1.nIdCount + 1), ids + [k];
    forall i | i in s.mapInfo ensures i in s'.mapInfo && s'.mapInfo[i].addr == s.mapInfo[i].addr {
      assert i != s1.nIdCount;
    }
    forall j | 0 <= j < |more| ensures JoinedAt(s', s.nIdCount + j, rs[more[j]]) {
      if j < |ids| {
        assert JoinedAt(s1, s.nIdCount + j, rs[ids[j]]);
      }
    }
  }

  lemma SlotJoins(t: map<Slot, int>, u: Slot, id: int)
    requires id != -1
    ensures forall v :: v in WithSlot(t, u, id) <==> v in t || v == u
  {
  }

  /** The tried records that are first in their slots are admitted in order. */
  lemma {:induction false} TriedAdmitted(c: Config, img: Image, s: State, k: nat)
    requires k <= |img.triedInfos| && RandOk(s) && (forall i :: i in s.mapInfo ==> i < s.nIdCount) && s.tried == map[] && s.nIdCount >= 0
    ensures var s', ids := LoadTried(c, img, s, k).0, FirstIds(c, img.triedInfos, k);
            Joined(s, s', img.triedInfos, ids) && forall u :: u in s'.tried <==> Taken(c, img.triedInfos, k, u)
  {
    hide RandOk, LoadTried, TriedSlot, Taken, FirstIds, Joined, Admit, WithSlot;
    var rs := img.triedInfos;
    if k == 0 {
      LoadTriedNone(c, img, s);
      NoneTaken(c, rs);
      NoFirsts(c, rs);
      NoneJoined(s, rs);
    } else {
      TriedAdmitted(c, img, s, k - 1);
      var (s1, nLost) := LoadTried(c, img, s, k - 1);
      LoadTriedNext(c, img, s, k - 1, s1, nLost);
      TakenNext(c, rs, k - 1);
      FirstsNext(c, rs, k);
      var u := TriedSlot(c, rs[k - 1].addr.service);
      SlotJoins(s1.tried, u, s1.nIdCount);
      JoinOne(s, s1, rs, FirstIds(c, rs, k - 1), k - 1, WithSlot(s1.tried, u, s1.nIdCount));
    }
  }

  lemma NoneJoined(s: State, rs: seq<Record>)
    ensures Joined(s, s, rs, [])
  {
  }

  lemma NoFirsts(c: Config, rs: seq<Record>)
    ensures FirstIds(c, rs, 0) == []
  {
  }

  lemma FirstsNext(c: Config, rs: seq<Record>, k: nat)
    requires 0 < k <= |rs|
    ensures FirstIds(c, rs, k)
         == if Taken(c, rs, k - 1, TriedSlot(c, rs[k - 1].addr.service)) then FirstIds(c, rs, k - 1) else FirstIds(c, rs, k - 1) + [k - 1]
  {
  }

  /** After reading, entry `i` has the address of admitted record `i`. */
  lemma ReadAdmitted(c: Config, img: Image, s1: State, s2: State)
    requires s1 == LoadNew(img, |img.newInfos|).(nIdCount := |img.newInfos|) && RandOk(s1)
    requires (forall i :: i in s1.mapInfo <==> 0 <= i < s1.nIdCount) && s2 == LoadTried(c, img, s1, |img.triedInfos|).0
    requires forall i :: i in s2.mapInfo <==> 0 <= i < s2.nIdCount
    ensures s2.nIdCount == |Admitted(c, img)|
    ensures forall i :: i in s2.mapInfo ==> s2.mapInfo[i].addr == Admitted(c, img)[i].addr
  {
    hide RandOk, LoadNew, LoadTried, FirstIds, Taken;
    var us, rs := img.newInfos, img.triedInfos;
    NewAdmitted(img, |us|);
    FreshTables(img, |us|);
    TriedAdmitted(c, img, s1, |rs|);
    forall i | i in s2.mapInfo ensures s2.mapInfo[i].addr == Admitted(c, img)[i].addr {
      if i < |us| {
        assert i in s1.mapInfo;
      } else {
        assert JoinedAt(s2, s1.nIdCount + (i - |us|), rs[FirstIds(c, rs, |rs|)[i - |us|]]);
      }
    }
  }

  lemma ReadLatest(c: Config, img: Image, s1: State, s2: State)
    requires s1 == LoadNew(img, |img.newInfos|).(nIdCount := img.nNew) && RandOk(s1) && (forall i :: i in s1.mapInfo ==> i < s1.nIdCount)
    requires var (r, nLost) := LoadTried(c, img, s1, |img.triedInfos|); s2 == r.(nTried := img.nTried - nLost)
    ensures Latest(s2)
  {
    hide RandOk, LoadNew, LoadTried, Latest;
    LoadNewLatest(img, |img.newInfos|);
    LatestFrame(LoadNew(img, |img.newInfos|), s1);
    LoadTriedLatest(c, img, s1, |img.triedInfos|);
    LatestFrame(LoadTried(c, img, s1, |img.triedInfos|).0, s2);
  }

  /** So it is before pruning, and each address leads to the last of them. */
  lemma AdmittedEntries(env: Env, asmap: Asmap, c: Config, img: Image) returns (s3: State)
    requires Admissible(env, asmap, c, img)
    ensures RandOk(s3) && Latest(s3) && s3.nIdCount == |Admitted(c, img)| && Load(env, asmap, img) == Some(Prune(s3, 0, s3.nIdCount))
    ensures forall i :: i in s3.mapInfo <==> 0 <= i < |Admitted(c, img)|
    ensures forall i :: i in s3.mapInfo ==> s3.mapInfo[i].Ip() == Admitted(c, img)[i].addr.service.ip
  {
    hide RandOk, LoadNew, LoadTried, PlaceAll, Prune, EntryToBucket, Reusable, Latest, Admitted, Load, Sized, UBuckets;
    var s1, s2;
    s1, s2, s3 := LoadStages(env, asmap, c, img);
    ReadLatest(c, img, s1, s2);
    ReadAdmitted(c, img, s1, LoadTried(c, img, s1, |img.triedInfos|).0);
    PlaceAllCount(c, s2, EntryToBucket(img, AtLeastZero(UBuckets(img))), Reusable(env, asmap, c, img), |img.newInfos|);
    LatestFrame(s2, s3);
    forall i ensures i in s3.mapInfo <==> i in s2.mapInfo {
      assert i in s3.mapInfo.Keys <==> i in s2.mapInfo.Keys;
    }
  }

  lemma {:induction false} FreshTables(img: Image, k: nat)
    requires k <= |img.newInfos|
    ensures LoadNew(img, k).tried == map[]
  {
    hide RandOk;
    if k > 0 {
      FreshTables(img, k - 1);
    }
  }

  lemma TwinsAreRepeats(c: Config, img: Image, e: map<int, int>, reuse: bool, s3: State, s: State)
    requires forall i :: i in s3.mapInfo <==> 0 <= i < |Admitted(c, img)|
    requires forall i :: i in s3.mapInfo ==> s3.mapInfo[i].Ip() == Admitted(c, img)[i].addr.service.ip
    requires forall i :: SurvivorAt(c, img, e, reuse, s, i)
    ensures (forall i, j :: Twins(s3, i, j) ==> i !in s.mapInfo) <==> RepeatsGone(c, img, e, reuse)
  {
    hide Seated, FirstIds, SurvivorAt, Thinned;
    var rs := Admitted(c, img);
    forall i | 0 <= i < |rs| ensures i in s.mapInfo <==> i >= |img.newInfos| || Seated(c, img.newInfos, e, reuse, i) {
      LeftOver(c, img, e, reuse, s, i);
    }
    if forall i, j :: Twins(s3, i, j) ==> i !in s.mapInfo {
      forall i, j | 0 <= i < |rs| && 0 <= j < |rs| && i != j && rs[i].addr.service.ip == rs[j].addr.service.ip
        ensures i < |img.newInfos| && !Seated(c, img.newInfos, e, reuse, i)
      {
        assert Twins(s3, i, j);
      }
    }
  }

  lemma LeftOver(c: Config, img: Image, e: map<int, int>, reuse: bool, s: State, i: nat)
    requires i < |Admitted(c, img)| && SurvivorAt(c, img, e, reuse, s, i)
    ensures i in s.mapInfo <==> i >= |img.newInfos| || Seated(c, img.newInfos, e, reuse, i)
  {
    hide Seated, FirstIds;
  }

  /** Every image of the promised shape is read.  What is lost is exactly what found its slots taken; the indexes agree
      exactly when no record with a repeated address found one, and then the manager is consistent exactly when the
      times of the survivors are fine. */
  lemma LoadAny(env: Env, asmap: Asmap, c: Config, img: Image)
    requires Admissible(env, asmap, c, img)
    ensures Load(env, asmap, img).Some?
    ensures var s, e := Load(env, asmap, img).value, EntryToBucket(img, AtLeastZero(UBuckets(img)));
            var reuse := Reusable(env, asmap, c, img);
            && Survived(c, img, e, reuse, s)
            && (Indexed(c, s) <==> RepeatsGone(c, img, e, reuse))
            && (Consistent(c, s) <==> && RepeatsGone(c, img, e, reuse)
                                      && (forall r :: r in Contents(s, false) ==> r.nLastSuccess >= 0)
                                      && (forall r :: r in Contents(s, true) ==> r.nLastSuccess > 0))
  {
    hide Load, Survived, Alike, RepeatsGone, Through, Mid, Latest, Fewer, EntryToBucket, Reusable, Prune, AddrOk, Twins, RandOk;
    var ips, b := Ips(img), AtLeastZero(UBuckets(img));
    var t, s := LoadAlike(ips, env, asmap, c, img);
    VeiledDistinct(ips, c, img);
    LoadDistinct(ThroughEnv(ips, env), asmap, Through(ips, c), Veiled(img));
    VeiledAdmissible(ips, env, asmap, c, img);
    BucketsVeiled(img, b);
    AlikeIndexed(ips, c, t, s);
    SurvivedUnveiled(ips, c, img, EntryToBucket(img, b), Reusable(env, asmap, c, img), t, s);
    var s3 := AdmittedEntries(env, asmap, c, img);
    PruneFewer(s3, s3.nIdCount);
    AddrsExactly(s3, s);
    SurvivedAt(c, img, EntryToBucket(img, b), Reusable(env, asmap, c, img), s);
    TwinsAreRepeats(c, img, EntryToBucket(img, b), Reusable(env, asmap, c, img), s3, s);
    LoadedTimes(s);
  }

  lemma SurvivedAt(c: Config, img: Image, e: map<int, int>, reuse: bool, s: State)
    requires Survived(c, img, e, reuse, s)
    ensures (forall i :: SurvivorAt(c, img, e, reuse, s, i)) && forall i :: i in s.mapInfo ==> s.mapInfo[i].nLastTry == 0
  {
    forall i | i in s.mapInfo ensures s.mapInfo[i].nLastTry == 0 {
      assert SurvivorAt(c, img, e, reuse, s, i);
    }
  }
}
