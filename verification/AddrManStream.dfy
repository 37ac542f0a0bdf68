/** Writing the address manager object out and reading it in. */
module AddrManStream {
  import opened Basics
  import opened AddrMan
  import opened AddrManObject
  import opened AddrManDisk
  import opened AddrManRoundTrip

  // ------------------------------------------------------------------
  // Writing
  // ------------------------------------------------------------------

  /** The records of one kind, in id order.  Their number never passes the counter, which is asserted on the way. */
  method WriteEntries(m: AddrManager, fTried: bool) returns (infos: seq<Record>, mapUnkIds: map<int, int>)
    requires Indexed(m.c, m.Value())
    ensures m.nIdCount >= 0 && infos == Records(m.mapInfo, IdsBelow(m.mapInfo, fTried, m.nIdCount))
    ensures !fTried ==> forall id :: id in m.mapInfo ==> id in mapUnkIds && mapUnkIds[id] == UnkId(m.mapInfo, id)
  {
    hide Mid, Selected, Saved, IdsBelow, Records;
    SelectedSplit(m.c, m.Value());
    NoRecords(m.mapInfo, fTried);
    infos, mapUnkIds := [], map[];
    var nIds := 0;
    for id := 0 to m.nIdCount
      invariant nIds == |IdsBelow(m.mapInfo, fTried, id)| && infos == Records(m.mapInfo, IdsBelow(m.mapInfo, fTried, id))
      invariant forall k :: k in m.mapInfo && k < id ==> k in mapUnkIds && mapUnkIds[k] == |IdsBelow(m.mapInfo, fTried, AtLeastZero(k))|
    {
      RecordsNext(m.mapInfo, fTried, id);
      if id in m.mapInfo {
        mapUnkIds := mapUnkIds[id := nIds];
        var info := m.mapInfo[id];
        if Selected(info, fTried) {
          IdAtIndex(m.mapInfo, fTried, id, m.nIdCount);
          assert nIds != if fTried then m.nTried else m.nNew;
          infos := infos + [Saved(info)];
          nIds := nIds + 1;
        }
      }
    }
  }

  lemma NoRecords(m: map<int, AddrInfo>, fTried: bool)
    ensures IdsBelow(m, fTried, 0) == [] && Records(m, []) == []
  {
  }

  lemma RecordsNext(m: map<int, AddrInfo>, fTried: bool, id: nat)
    ensures var ids, ids' := IdsBelow(m, fTried, id), IdsBelow(m, fTried, id + 1);
            if id as int in m && Selected(m[id], fTried)
            then |ids'| == |ids| + 1 && Records(m, ids') == Records(m, ids) + [Saved(m[id])]
            else ids' == ids
  {
    hide Saved, Selected;
  }

  method WriteBucket(m: AddrManager, mapUnkIds: map<int, int>, bucket: int) returns (xs: seq<int>)
    requires m.Shape() && Indexed(m.c, m.Value()) && 0 <= bucket < m.c.nNewBuckets
    requires forall id :: id in m.mapInfo ==> id in mapUnkIds && mapUnkIds[id] == UnkId(m.mapInfo, id)
    ensures xs == Indexes(m.Value(), bucket, m.c.nBucketSize)
  {
    xs := [];
    for i := 0 to m.c.nBucketSize
      invariant xs == Indexes(m.Value(), bucket, i)
    {
      TableAt(m.vvNew, bucket, i);
      if m.vvNew[bucket, i] != -1 {
        assert (bucket, i) in m.Value().new_;
        xs := xs + [mapUnkIds[m.vvNew[bucket, i]]];
      }
    }
  }

  method Serialize(m: AddrManager, env: Env, nKey: nat, asmap: Asmap) returns (img: Image)
    requires m.Shape() && Indexed(m.c, m.Value()) && m.c == env.hashes(nKey, asmap)
    ensures img == Save(m.c, m.Value(), nKey, AsmapVersion(env, asmap))
  {
    var newInfos, mapUnkIds := WriteEntries(m, false);
    var triedInfos, _ := WriteEntries(m, true);
    var buckets: seq<seq<int>> := [];
    for bucket := 0 to m.c.nNewBuckets
      invariant |buckets| == bucket
      invariant forall b :: 0 <= b < bucket ==> buckets[b] == Indexes(m.Value(), b, m.c.nBucketSize)
    {
      var xs := WriteBucket(m, mapUnkIds, bucket);
      buckets := buckets + [xs];
    }
    img := Image(VERSION, KEY_SIZE, nKey, m.nNew, m.nTried, Flip(m.c.nNewBuckets), newInfos, triedInfos, buckets,
                 AsmapVersion(env, asmap));
  }

  // ------------------------------------------------------------------
  // Reading
  // ------------------------------------------------------------------

  method ReadNew(m: AddrManager, img: Image)
    requires m.Value() == Empty().(nNew := img.nNew, nTried := img.nTried) && img.nNew <= |img.newInfos|
    modifies m`mapInfo, m`mapAddr, m`vRandom, m`nIdCount
    ensures m.Value() == LoadNew(img, AtLeastZero(img.nNew)).(nIdCount := img.nNew)
    ensures RandOk(m.Value()) && forall i :: i in m.mapInfo <==> 0 <= i < img.nNew
  {
    hide RandOk;
    for n := 0 to AtLeastZero(img.nNew)
      invariant m.Value() == LoadNew(img, n)
    {
      var info := img.newInfos[n];
      m.mapAddr := m.mapAddr[info.addr.service.ip := n];
      m.mapInfo := m.mapInfo[n := Restored(info).(nRandomPos := |m.vRandom|)];
      m.vRandom := m.vRandom + [n];
    }
    ghost var s := m.Value();
    m.nIdCount := img.nNew;
    RandSame(s, m.Value());
  }

  method ReadTried(m: AddrManager, img: Image) returns (nLost: nat)
    requires m.Shape() && img.nTried <= |img.triedInfos| && RandOk(m.Value()) && forall i :: i in m.mapInfo ==> i < m.nIdCount
    modifies m`mapInfo, m`mapAddr, m`vRandom, m`nIdCount, m`nTried, m.vvTried
    ensures LoadTried(m.c, img, old(m.Value()), AtLeastZero(img.nTried)) == (m.Value().(nTried := old(m.nTried)), nLost)
    ensures m.nTried == old(m.nTried) - nLost && RandOk(m.Value()) && m.nIdCount >= old(m.nIdCount)
    ensures forall i :: i in old(m.mapInfo) ==> i in m.mapInfo
  {
    hide RandOk, Admit, WithSlot, Table, LoadTried;
    nLost := 0;
    ghost var s := m.Value();
    LoadTriedNone(m.c, img, s);
    for n := 0 to AtLeastZero(img.nTried)
      invariant (m.Value(), nLost) == LoadTried(m.c, img, s, n) && m.nTried == old(m.nTried)
    {
      var info := img.triedInfos[n];
      var b := m.c.triedBucket(info.addr.service);
      var p := m.c.position(info.addr.service, false, b);
      TableAt(m.vvTried, b, p);
      LoadTriedNext(m.c, img, s, n, m.Value(), nLost);
      if m.vvTried[b, p] == -1 {
        ReadOneTried(m, info, b, p);
      } else {
        nLost := nLost + 1;
      }
    }
    ghost var s1 := m.Value();
    m.nTried := m.nTried - nLost;
    RandSame(s1, m.Value());
  }

  method ReadOneTried(m: AddrManager, info: Record, b: int, p: int)
    requires m.Shape() && 0 <= b < m.c.nTriedBuckets && 0 <= p < m.c.nBucketSize
    modifies m`mapInfo, m`mapAddr, m`vRandom, m`nIdCount, m.vvTried
    ensures m.Value() == Admit(old(m.Value()), old(m.nIdCount), info, true).(
                           tried := WithSlot(old(Table(m.vvTried)), (b, p), old(m.nIdCount)), nIdCount := old(m.nIdCount) + 1)
  {
    m.mapInfo := m.mapInfo[m.nIdCount := Restored(info).(nRandomPos := |m.vRandom|, fInTried := true)];
    m.vRandom := m.vRandom + [m.nIdCount];
    m.mapAddr := m.mapAddr[info.addr.service.ip := m.nIdCount];
    SetSlot(m.vvTried, b, p, m.nIdCount);
    m.nIdCount := m.nIdCount + 1;
  }

  method ReadBuckets(img: Image) returns (entryToBucket: map<int, int>)
    requires UBuckets(img) <= |img.buckets|
    ensures entryToBucket == EntryToBucket(img, AtLeastZero(UBuckets(img)))
  {
    entryToBucket := map[];
    for bucket := 0 to AtLeastZero(UBuckets(img))
      invariant entryToBucket == EntryToBucket(img, bucket)
    {
      var xs := img.buckets[bucket];
      ghost var e := entryToBucket;
      for n := 0 to |xs|
        invariant entryToBucket == Note(img.nNew, e, xs, bucket, n)
      {
        if 0 <= xs[n] < img.nNew {
          entryToBucket := entryToBucket[xs[n] := bucket];
        }
      }
    }
  }

  method PlaceEntry(m: AddrManager, n: int, bucket: int, reuse: bool, ghost e: map<int, int>)
    requires m.Shape() && RandOk(m.Value()) && n in m.mapInfo && n != -1 && bucket == (if n in e then e[n] else 0)
    requires reuse ==> 0 <= bucket < m.c.nNewBuckets
    modifies m`mapInfo, m.vvNew
    ensures m.Value() == PlaceOne(m.c, old(m.Value()), e, reuse, n)
  {
    hide RandOk;
    var info := m.mapInfo[n];
    var p := m.c.position(info.addr.service, true, bucket);
    if reuse { TableAt(m.vvNew, bucket, p); }
    if reuse && m.vvNew[bucket, p] == -1 && info.nRefCount < NEW_BUCKETS_PER_ADDRESS {
      m.TakeSlotAt(bucket, p, n);
    } else {
      var b := m.c.newBucket(info.addr.service, info.source);
      p := m.c.position(info.addr.service, true, b);
      TableAt(m.vvNew, b, p);
      if m.vvNew[b, p] == -1 {
        m.TakeSlotAt(b, p, n);
      }
    }
  }

  method PlaceEntries(m: AddrManager, entryToBucket: map<int, int>, reuse: bool, nNew: nat)
    requires m.Shape() && RandOk(m.Value()) && forall i :: 0 <= i < nNew ==> i in m.mapInfo
    requires reuse ==> forall i :: i in entryToBucket ==> 0 <= entryToBucket[i] < m.c.nNewBuckets
    modifies m`mapInfo, m.vvNew
    ensures m.Value() == PlaceAll(m.c, old(m.Value()), entryToBucket, reuse, nNew)
  {
    hide RandOk, PlaceOne;
    ghost var s := m.Value();
    for n := 0 to nNew
      invariant m.Value() == PlaceAll(m.c, s, entryToBucket, reuse, n)
    {
      assert n in s.mapInfo.Keys;
      SomeBucket(m.c);
      PlaceEntry(m, n, if n in entryToBucket then entryToBucket[n] else 0, reuse, entryToBucket);
    }
  }

  lemma SomeBucket(c: Config)
    requires Sized(c)
    ensures c.nNewBuckets > 0
  {
    assert 0 <= c.newBucket(Service(0, 0), 0) < c.nNewBuckets;
  }

  method PruneEntries(m: AddrManager, lo: int)
    requires RandOk(m.Value()) && lo <= m.nIdCount
    modifies m`mapInfo, m`mapAddr, m`vRandom, m`nNew
    ensures m.Value() == Prune(old(m.Value()), lo, old(m.nIdCount))
  {
    hide RandOk, AddrMan.Delete;
    ghost var s := m.Value();
    for id := lo to m.nIdCount
      invariant m.Value() == Prune(s, lo, id)
    {
      if id in m.mapInfo && !m.mapInfo[id].fInTried && m.mapInfo[id].nRefCount == 0 {
        m.Delete(id);
      }
    }
  }

  /** Reading into a new manager. */
  method Unserialize(env: Env, asmap: Asmap, img: Image) returns (r: Option<AddrManager>)
    requires Sized(env.hashes(img.nKey, asmap))
    ensures r.Some? ==> fresh(r.value) && r.value.Shape() && r.value.c == env.hashes(img.nKey, asmap)
    ensures Load(env, asmap, img) == if r.None? then None else Some(r.value.Value())
  {
    hide RandOk, LoadNew, LoadTried, PlaceAll, Prune, EntryToBucket, Table, Flip, Reusable, Sized;
    var c := env.hashes(img.nKey, asmap);
    if img.nKeySize != KEY_SIZE {
      return None;
    }
    if img.nNew > c.nNewBuckets * c.nBucketSize || img.nTried > c.nTriedBuckets * c.nBucketSize {
      return None;
    }
    if !Complete(img) {
      return None;
    }
    var m := new AddrManager(c);
    m.nNew, m.nTried := img.nNew, img.nTried;
    ReadNew(m, img);
    var nLost := ReadTried(m, img);
    PlaceAndPrune(m, img, Reusable(env, asmap, c, img), env, asmap);
    r := Some(m);
  }

  /** The part of Unserialize that follows the reading of the entries. */
  method PlaceAndPrune(m: AddrManager, img: Image, reuse: bool, ghost env: Env, ghost asmap: Asmap)
    requires m.Shape() && RandOk(m.Value()) && Complete(img) && reuse == Reusable(env, asmap, m.c, img)
    requires m.nIdCount >= img.nNew && (m.nIdCount >= 0 || img.nNew < 0) && forall i :: 0 <= i < img.nNew ==> i in m.mapInfo
    modifies m`mapInfo, m`mapAddr, m`vRandom, m`nNew, m.vvNew
    ensures var e := EntryToBucket(img, AtLeastZero(UBuckets(img)));
            var s3 := PlaceAll(m.c, old(m.Value()), e, reuse, AtLeastZero(img.nNew));
            && s3.nIdCount == old(m.nIdCount)
            && m.Value() == Prune(s3, if img.nNew < 0 then img.nNew else 0, s3.nIdCount)
  {
    hide RandOk, PlaceAll, Prune, EntryToBucket, Table, Flip;
    var entryToBucket := ReadBuckets(img);
    BucketsBelow(img, AtLeastZero(UBuckets(img)));
    PlaceEntries(m, entryToBucket, reuse, AtLeastZero(img.nNew));
    PruneEntries(m, if img.nNew < 0 then img.nNew else 0);
  }
}
