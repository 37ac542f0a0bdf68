/** The address manager object: tables as arrays, entries and indexes as fields, every operation in place. */
module AddrManObject {
  import opened Basics
  import opened Powers
  import opened AddrMan
  import opened AddrManOps
  import opened AddrManRuns

  ghost function Grid(m: nat, n: nat): set<Slot> { set b, p | 0 <= b < m && 0 <= p < n :: (b, p) }

  /** The occupied slots of a table; -1 marks a free one. */
  ghost function Table(a: array2<int>): map<Slot, int>
    reads a
  {
    map u | u in Grid(a.Length0, a.Length1) && a[u.0, u.1] != -1 :: a[u.0, u.1]
  }

  lemma TableAt(a: array2<int>, b: int, p: int)
    requires 0 <= b < a.Length0 && 0 <= p < a.Length1
    ensures (b, p) in Table(a) <==> a[b, p] != -1
    ensures (b, p) in Table(a) ==> Table(a)[(b, p)] == a[b, p]
  {
    assert (b, p) in Grid(a.Length0, a.Length1);
  }

  /** `a[b][p] = id` */
  method SetSlot(a: array2<int>, b: int, p: int, id: int)
    requires 0 <= b < a.Length0 && 0 <= p < a.Length1
    modifies a
    ensures a[b, p] == id
    ensures Table(a) == WithSlot(old(Table(a)), (b, p), id)
  {
    ghost var before := Table(a);
    a[b, p] := id;
    assert (b, p) in Grid(a.Length0, a.Length1);
    forall u ensures u in Table(a) <==> u in WithSlot(before, (b, p), id) { }
    forall u | u in Table(a) ensures Table(a)[u] == WithSlot(before, (b, p), id)[u] { }
  }

  /** The slots that `id` holds in the new buckets below `b`, where its hashes allow. */
  ghost function OwnBelow(c: Config, t: map<Slot, int>, svc: Service, id: int, b: int): set<Slot> {
    set u | u in t && t[u] == id && u == NewSlotIn(c, svc, u.0) && u.0 < b
  }

  lemma OwnNext(c: Config, t: map<Slot, int>, svc: Service, id: int, b: int)
    ensures var v, rest := NewSlotIn(c, svc, b), t - OwnBelow(c, t, svc, id, b);
            if v in rest && rest[v] == id then
              && t - OwnBelow(c, t, svc, id, b + 1) == rest - {v}
              && |OwnBelow(c, t, svc, id, b + 1)| == |OwnBelow(c, t, svc, id, b)| + 1
            else
              OwnBelow(c, t, svc, id, b + 1) == OwnBelow(c, t, svc, id, b)
  {
    var v, below := NewSlotIn(c, svc, b), OwnBelow(c, t, svc, id, b);
    var next := if v in t && t[v] == id then below + {v} else below;
    forall u ensures u in OwnBelow(c, t, svc, id, b + 1) <==> u in next { }
    assert OwnBelow(c, t, svc, id, b + 1) == next;
    assert v !in below;
  }

  /** Entry `id` with `k` references fewer. */
  function FewerRefs(m: map<int, AddrInfo>, id: int, k: int): map<int, AddrInfo>
    requires id in m
  {
    m[id := m[id].(nRefCount := m[id].nRefCount - k)]
  }

  lemma FewerRefsNext(m: map<int, AddrInfo>, id: int, k: int)
    requires id in m
    ensures FewerRefs(FewerRefs(m, id, k), id, 1) == FewerRefs(m, id, k + 1)
    ensures m == FewerRefs(m, id, 0) && FewerRefs(m, id, k)[id].addr == m[id].addr
  {
  }

  /** What ClearNew relies on holds in the middle of any operation. */
  lemma ClearNewReady(c: Config, s: State, b: int, p: int, limbo: set<int>, extra: int)
    requires Mid(c, s, limbo, extra)
    ensures (b, p) in s.new_ ==>
              s.new_[(b, p)] in s.mapInfo && !s.mapInfo[s.new_[(b, p)]].fInTried && s.mapInfo[s.new_[(b, p)]].nRefCount > 0
  {
    if (b, p) in s.new_ {
      assert (b, p) in SlotsOf(s.new_, s.new_[(b, p)]);
    }
  }

  lemma RandPlace(s: State, id: int)
    requires RandOk(s) && id in s.mapInfo
    ensures 0 <= s.mapInfo[id].nRandomPos < |s.vRandom| && s.vRandom[s.mapInfo[id].nRandomPos] == id
    ensures s.vRandom[|s.vRandom| - 1] in s.mapInfo
  {
  }

  lemma TableRows(a: array2<int>)
    ensures forall u :: u in Table(a) ==> 0 <= u.0 < a.Length0
  {
  }

  lemma OwnAll(c: Config, t: map<Slot, int>, svc: Service, id: int)
    requires forall u :: u in t ==> 0 <= u.0 < c.nNewBuckets
    ensures OwnBelow(c, t, svc, id, c.nNewBuckets) == set u | u in t && t[u] == id && u == NewSlotIn(c, svc, u.0)
  {
  }

  /** The bucket that the search for an entry looks at in its turn `n`. */
  function Probe(n: nat, nRnd: nat, count: nat): (b: nat)
    requires count > 0
    ensures b < count
  {
    (n + nRnd) % count
  }

  lemma ProbeReaches(b: nat, nRnd: nat, count: nat) returns (n: nat)
    requires b < count && nRnd < count
    ensures n < count && Probe(n, nRnd, count) == b
  {
    n := if b >= nRnd then b - nRnd else b - nRnd + count;
    DivModIs(n + nRnd, if b >= nRnd then 0 else 1, b, count);
  }

  ghost predicate Ascending(xs: seq<int>) { forall i, j :: 0 <= i < j < |xs| ==> xs[i] < xs[j] }

  ghost function Elements(xs: seq<int>): set<int> { set x | x in xs }

  lemma {:induction false} ElementsCount(xs: seq<int>)
    requires Ascending(xs)
    ensures |Elements(xs)| == |xs|
  {
    if xs != [] {
      var n := |xs| - 1;
      ElementsCount(xs[..n]);
      assert Elements(xs) == Elements(xs[..n]) + {xs[n]};
    }
  }

  lemma Removed(xs: seq<int>, i: nat)
    requires Ascending(xs) && i < |xs|
    ensures Ascending(xs[..i] + xs[i + 1..])
    ensures Elements(xs[..i] + xs[i + 1..]) == Elements(xs) - {xs[i]}
  {
    var ys := xs[..i] + xs[i + 1..];
    forall x ensures x in ys <==> x in xs && x != xs[i] {
      if x in xs && x != xs[i] {
        var k :| 0 <= k < |xs| && xs[k] == x;
        assert ys[if k < i then k else k - 1] == x;
      }
    }
  }

  /** What is left of `xs` from `i` on is what is left of `ys` from `k` on. */
  ghost predicate SameRest(xs: seq<int>, i: nat, ys: seq<int>, k: nat) {
    i <= |xs| && k <= |ys| && xs[i..] == ys[k..]
  }

  lemma RestShrinks(xs: seq<int>, i: nat, ys: seq<int>, k: nat)
    requires SameRest(xs, i, ys, k) && i < |xs|
    ensures k < |ys| && xs[i] == ys[k]
    ensures SameRest(xs, i + 1, ys, k + 1) && SameRest(xs[..i] + xs[i + 1..], i, ys, k + 1)
  {
    assert xs[i..][0] == ys[k..][0];
    assert xs[i..][1..] == ys[k..][1..];
    assert (xs[..i] + xs[i + 1..])[i..] == xs[i + 1..];
  }

  /** Inserts into the ordered set. */
  method Inserted(xs: seq<int>, x: int) returns (ys: seq<int>)
    requires Ascending(xs)
    ensures Ascending(ys) && Elements(ys) == Elements(xs) + {x}
  {
    var i := 0;
    while i < |xs| && xs[i] < x
      invariant 0 <= i <= |xs| && forall k :: 0 <= k < i ==> xs[k] < x
    {
      i := i + 1;
    }
    if i < |xs| && xs[i] == x {
      return xs;
    }
    ys := xs[..i] + [x] + xs[i..];
    forall y ensures y in ys <==> y in xs || y == x {
      assert xs == xs[..i] + xs[i..];
    }
  }

  /** Two to the number of references. */
  method Factor(nRefCount: int) returns (nFactor: nat)
    ensures nFactor == if nRefCount <= 0 then 1 else Pow(2, nRefCount)
    ensures nFactor > 1 <==> nRefCount > 0
  {
    nFactor := 1;
    var n := 0;
    while n < nRefCount
      invariant 0 <= n && (if nRefCount >= 0 then n <= nRefCount else n == 0) && nFactor == Pow(2, n) && (nFactor > 1 <==> n > 0)
    {
      nFactor := nFactor * 2;
      n := n + 1;
    }
  }

  method WipeTable(a: array2<int>)
    modifies a
    ensures Table(a) == map[]
  {
    for bucket := 0 to a.Length0
      invariant forall b, p :: 0 <= b < bucket && 0 <= p < a.Length1 ==> a[b, p] == -1
    {
      for entry := 0 to a.Length1
        invariant forall b, p :: 0 <= b < bucket && 0 <= p < a.Length1 ==> a[b, p] == -1
        invariant forall p :: 0 <= p < entry ==> a[bucket, p] == -1
      {
        a[bucket, entry] := -1;
      }
    }
  }

  class AddrManager {
    var c: Config  // the hashes under the current key
    var nIdCount: int
    var mapInfo: map<int, AddrInfo>
    var mapAddr: map<NetAddr, int>
    var vRandom: seq<int>
    var nTried: int
    const vvTried: array2<int>
    var nNew: int
    const vvNew: array2<int>
    var nLastGood: int
    var triedCollisions: seq<int>  // the ordered set, in increasing order

    ghost predicate Shape()
      reads this`triedCollisions, this`c
    {
      && Sized(c) && vvNew != vvTried && Ascending(triedCollisions)
      && vvTried.Length0 == c.nTriedBuckets && vvTried.Length1 == c.nBucketSize
      && vvNew.Length0 == c.nNewBuckets && vvNew.Length1 == c.nBucketSize
    }

    /** The manager as a value. */
    ghost function Value(): State
      reads this, vvTried, vvNew
    {
      State(nIdCount, mapInfo, mapAddr, vRandom, nTried, Table(vvTried), nNew, Table(vvNew), nLastGood, Elements(triedCollisions))
    }

    constructor (config: Config)
      requires Sized(config)
      ensures Shape() && c == config && fresh(vvTried) && fresh(vvNew)
      ensures Value() == Empty()
    {
      c := config;
      nIdCount, mapInfo, mapAddr, vRandom := 0, map[], map[], [];
      nTried, nNew, nLastGood, triedCollisions := 0, 0, 1, [];
      vvTried := new int[config.nTriedBuckets, config.nBucketSize]((_, _) => -1);
      vvNew := new int[config.nNewBuckets, config.nBucketSize]((_, _) => -1);
      new;
      assert Table(vvTried) == map[] && Table(vvNew) == map[];
    }

    /** Draws a new key, which changes the hashes; the pending collisions stay. */
    method Clear(hashes: Config)
      requires Shape() && Sized(hashes)
      requires hashes.nNewBuckets == c.nNewBuckets && hashes.nTriedBuckets == c.nTriedBuckets && hashes.nBucketSize == c.nBucketSize
      modifies this, vvTried, vvNew
      ensures Shape() && c == hashes && Value() == Cleared(old(Value()))
      ensures Indexed(c, Value()) && triedCollisions == old(triedCollisions)
    {
      hide Table, Sized, Indexed;
      vRandom := [];
      c := hashes;
      WipeTable(vvNew);
      WipeTable(vvTried);
      nIdCount, nTried, nNew, nLastGood, mapInfo, mapAddr := 0, 0, 0, 1, map[], map[];
      ClearedIndexed(c, old(Value()));
    }

    method Create(addr: Address, source: NetAddr) returns (nId: int)
      modifies this`nIdCount, this`mapInfo, this`mapAddr, this`vRandom
      ensures Value() == AddrMan.Create(old(Value()), addr, source) && nId == old(nIdCount)
    {
      nId := nIdCount;
      nIdCount := nIdCount + 1;
      mapInfo := mapInfo[nId := NewInfo(addr, source)];
      mapAddr := mapAddr[addr.service.ip := nId];
      mapInfo := mapInfo[nId := mapInfo[nId].(nRandomPos := |vRandom|)];
      vRandom := vRandom + [nId];
      assert mapInfo == old(mapInfo)[nId := NewInfo(addr, source).(nRandomPos := |old(vRandom)|)];
    }

    method SwapRandom(nRndPos1: int, nRndPos2: int)
      requires 0 <= nRndPos1 < |vRandom| && 0 <= nRndPos2 < |vRandom| && RandOk(Value())
      modifies this`mapInfo, this`vRandom
      ensures Value() == AddrMan.SwapRandom(old(Value()), nRndPos1, nRndPos2)
    {
      if nRndPos1 == nRndPos2 {
        return;
      }
      var nId1, nId2 := vRandom[nRndPos1], vRandom[nRndPos2];
      assert nId1 in mapInfo && nId2 in mapInfo;
      mapInfo := mapInfo[nId1 := mapInfo[nId1].(nRandomPos := nRndPos2)];
      mapInfo := mapInfo[nId2 := mapInfo[nId2].(nRandomPos := nRndPos1)];
      vRandom := vRandom[nRndPos1 := nId2][nRndPos2 := nId1];
    }

    method Delete(nId: int)
      requires nId in mapInfo && !mapInfo[nId].fInTried && mapInfo[nId].nRefCount == 0 && RandOk(Value())
      modifies this`mapInfo, this`mapAddr, this`vRandom, this`nNew
      ensures Value() == AddrMan.Delete(old(Value()), nId)
    {
      hide RandOk, AddrMan.SwapRandom, Table;
      var ip := mapInfo[nId].Ip();
      RandPlace(Value(), nId);
      SwapMoves(Value(), mapInfo[nId].nRandomPos, |vRandom| - 1);
      SwapRandom(mapInfo[nId].nRandomPos, |vRandom| - 1);
      vRandom := vRandom[..|vRandom| - 1];
      mapAddr := mapAddr - {ip};
      mapInfo := mapInfo - {nId};
      nNew := nNew - 1;
    }

    method ClearNew(b: int, p: int)
      requires Shape() && 0 <= b < c.nNewBuckets && 0 <= p < c.nBucketSize && RandOk(Value())
      requires vvNew[b, p] != -1 ==> vvNew[b, p] in mapInfo && !mapInfo[vvNew[b, p]].fInTried && mapInfo[vvNew[b, p]].nRefCount > 0
      modifies this`mapInfo, this`mapAddr, this`vRandom, this`nNew, vvNew
      ensures (b, p) in old(Table(vvNew)) ==> old(Table(vvNew))[(b, p)] in old(mapInfo)
      ensures Value() == AddrMan.ClearNew(old(Value()), (b, p))
    {
      TableAt(vvNew, b, p);
      if vvNew[b, p] != -1 {
        var nIdDelete := vvNew[b, p];
        var info := mapInfo[nIdDelete];
        assert info.nRefCount > 0;
        mapInfo := mapInfo[nIdDelete := info.(nRefCount := info.nRefCount - 1)];
        SetSlot(vvNew, b, p, -1);
        assert Value() == DropSlot(old(Value()), (b, p));
        if mapInfo[nIdDelete].nRefCount == 0 {
          RandFrame(old(Value()), Value());
          Delete(nIdDelete);
        }
      }
    }

    /** One turn of the loop of MakeTried: out of one new bucket. */
    method RemoveFromBucket(nId: int, bucket: int)
      requires Shape() && nId in mapInfo && nId != -1 && 0 <= bucket < c.nNewBuckets
      modifies this`mapInfo, vvNew
      ensures var u := NewSlotIn(c, old(mapInfo)[nId].addr.service, bucket);
              if u in old(Table(vvNew)) && old(Table(vvNew))[u] == nId
              then Table(vvNew) == old(Table(vvNew)) - {u} && mapInfo == FewerRefs(old(mapInfo), nId, 1)
              else Table(vvNew) == old(Table(vvNew)) && mapInfo == old(mapInfo)
    {
      var info := mapInfo[nId];
      var pos := c.position(info.addr.service, true, bucket);
      TableAt(vvNew, bucket, pos);
      if vvNew[bucket, pos] == nId {
        SetSlot(vvNew, bucket, pos, -1);
        mapInfo := mapInfo[nId := info.(nRefCount := info.nRefCount - 1)];
      }
    }

    method RemoveFromBuckets(nId: int)
      requires Shape() && nId in mapInfo && nId != -1
      modifies this`mapInfo, vvNew
      ensures var own := OwnBelow(c, old(Table(vvNew)), old(mapInfo)[nId].addr.service, nId, c.nNewBuckets);
              Table(vvNew) == old(Table(vvNew)) - own && mapInfo == FewerRefs(old(mapInfo), nId, |own|)
    {
      ghost var t, svc := Table(vvNew), mapInfo[nId].addr.service;
      FewerRefsNext(mapInfo, nId, 0);
      for bucket := 0 to c.nNewBuckets
        invariant Table(vvNew) == t - OwnBelow(c, t, svc, nId, bucket)
        invariant mapInfo == FewerRefs(old(mapInfo), nId, |OwnBelow(c, t, svc, nId, bucket)|)
      {
        OwnNext(c, t, svc, nId, bucket);
        FewerRefsNext(old(mapInfo), nId, |OwnBelow(c, t, svc, nId, bucket)|);
        RemoveFromBucket(nId, bucket);
      }
    }

    method RemoveFromNew(nId: int)
      requires Shape() && nId in mapInfo && nId != -1
      modifies this`mapInfo, this`nNew, vvNew
      ensures Value() == LeaveNew(c, old(Value()), nId)
    {
      hide Table, OwnBelow;
      TableRows(vvNew);
      ghost var t, svc := Table(vvNew), mapInfo[nId].addr.service;
      RemoveFromBuckets(nId);
      nNew := nNew - 1;
      OwnAll(c, t, svc, nId);
    }

    /** Takes the entry at a tried slot out of the tried set. */
    method LeaveTriedAt(b: int, p: int)
      requires Shape() && 0 <= b < c.nTriedBuckets && 0 <= p < c.nBucketSize
      requires vvTried[b, p] != -1 && vvTried[b, p] in mapInfo
      modifies this`mapInfo, this`nTried, vvTried
      ensures (b, p) in old(Table(vvTried)) && old(Table(vvTried))[(b, p)] == old(vvTried[b, p])
      ensures Value() == LeaveTried(old(Value()), (b, p))
    {
      TableAt(vvTried, b, p);
      var nIdEvict := vvTried[b, p];
      mapInfo := mapInfo[nIdEvict := mapInfo[nIdEvict].(fInTried := false)];
      SetSlot(vvTried, b, p, -1);
      nTried := nTried - 1;
    }

    method EnterTriedAt(b: int, p: int, nId: int)
      requires Shape() && 0 <= b < c.nTriedBuckets && 0 <= p < c.nBucketSize && nId in mapInfo && nId != -1
      modifies this`mapInfo, this`nTried, vvTried
      ensures Value() == EnterTried(old(Value()), (b, p), nId)
    {
      SetSlot(vvTried, b, p, nId);
      nTried := nTried + 1;
      mapInfo := mapInfo[nId := mapInfo[nId].(fInTried := true)];
    }

    /** Enters an evicted entry into the new set again. */
    method ReenterAt(b: int, p: int, nId: int)
      requires Shape() && 0 <= b < c.nNewBuckets && 0 <= p < c.nBucketSize && nId in mapInfo && nId != -1
      modifies this`mapInfo, this`nNew, vvNew
      ensures var s := old(Value());
              Value() == PutInfo(s, nId, s.mapInfo[nId].(nRefCount := 1)).(new_ := s.new_[(b, p) := nId], nNew := s.nNew + 1)
    {
      mapInfo := mapInfo[nId := mapInfo[nId].(nRefCount := 1)];
      SetSlot(vvNew, b, p, nId);
      nNew := nNew + 1;
    }

    /** An entry in neither table takes the new slot that its own source gives, deleting whatever is there. */
    method Reinstate(nId: int, ghost limbo: set<int>)
      requires Shape() && Mid(c, Value(), limbo, 0) && nId in limbo && nId in mapInfo
      modifies this`mapInfo, this`mapAddr, this`vRandom, this`nNew, vvNew
      ensures var v := NewSlot(c, old(mapInfo)[nId].addr.service, old(mapInfo)[nId].source);
              var s2 := AddrMan.ClearNew(old(Value()), v);
              && nId in s2.mapInfo
              && Value() == PutInfo(s2, nId, s2.mapInfo[nId].(nRefCount := 1)).(new_ := s2.new_[v := nId], nNew := s2.nNew + 1)
    {
      hide RandOk, TriedOk, RefOk, CountOk, AddrOk, AddrMan.ClearNew;
      var svc, source := mapInfo[nId].addr.service, mapInfo[nId].source;
      var nUBucket := c.newBucket(svc, source);
      var nUBucketPos := c.position(svc, true, nUBucket);
      ClearNewTouches(c, Value(), (nUBucket, nUBucketPos), limbo, 0);
      ClearNewReady(c, Value(), nUBucket, nUBucketPos, limbo, 0);
      TableAt(vvNew, nUBucket, nUBucketPos);
      ClearNew(nUBucket, nUBucketPos);
      TableAt(vvNew, nUBucket, nUBucketPos);
      assert vvNew[nUBucket, nUBucketPos] == -1;
      ReenterAt(nUBucket, nUBucketPos, nId);
    }

    method EvictFrom(b: int, p: int, ghost limbo: set<int>)
      requires Shape() && Mid(c, Value(), limbo, 0)
      requires 0 <= b < c.nTriedBuckets && 0 <= p < c.nBucketSize && (b, p) in Value().tried
      modifies this`mapInfo, this`mapAddr, this`vRandom, this`nNew, this`nTried, vvNew, vvTried
      ensures Value() == Evict(c, old(Value()), (b, p), limbo)
    {
      TableAt(vvTried, b, p);
      var nIdEvict := vvTried[b, p];
      assert nIdEvict in mapInfo;
      LeaveTriedKeeps(c, Value(), (b, p), limbo, 0);
      LeaveTriedAt(b, p);
      Reinstate(nIdEvict, limbo + {nIdEvict});
    }

    /** Makes space in the tried table: the entry found there, if any, goes back to the new table. */
    method MakeSpace(nId: int)
      requires Shape() && Mid(c, Value(), {nId}, 0)
      modifies this`mapInfo, this`mapAddr, this`vRandom, this`nNew, this`nTried, vvNew, vvTried
      ensures nId in old(mapInfo)
      ensures var s, u := old(Value()), TriedSlot(c, old(mapInfo)[nId].addr.service);
              Value() == if u in s.tried then Evict(c, s, u, {nId}) else s
    {
      var svc := mapInfo[nId].addr.service;
      var b := c.triedBucket(svc);
      var p := c.position(svc, false, b);
      TableAt(vvTried, b, p);
      if vvTried[b, p] != -1 {
        EvictFrom(b, p, {nId});
      }
    }

    method MakeTried(nId: int)
      requires Shape() && Indexed(c, Value()) && nId in mapInfo && !mapInfo[nId].fInTried
      modifies this`mapInfo, this`mapAddr, this`vRandom, this`nNew, this`nTried, vvNew, vvTried
      ensures Value() == AddrMan.MakeTried(c, old(Value()), nId)
    {
      hide RandOk, TriedOk, NewOk, RefOk, CountOk, AddrOk, Evict;
      LeaveNewKeeps(c, Value(), nId);
      RemoveFromNew(nId);
      assert mapInfo[nId].nRefCount == 0;
      var svc := mapInfo[nId].addr.service;
      MakeSpace(nId);
      assert Value() == MakeRoom(c, old(Value()), nId);
      MakeRoomTouches(c, old(Value()), nId);
      var b := c.triedBucket(svc);
      var p := c.position(svc, false, b);
      TableAt(vvTried, b, p);
      assert vvTried[b, p] == -1;
      EnterTriedAt(b, p, nId);
    }

    predicate InBucket(nId: int, svc: Service, b: int)
      requires Shape() && 0 <= b < c.nNewBuckets
      reads this`triedCollisions, this`c, vvNew
    {
      vvNew[b, c.position(svc, true, b)] == nId
    }

    /** Finds a bucket that the entry is in now; `nRnd` is where the search starts. */
    method FindNewBucket(nId: int, nRnd: nat) returns (nUBucket: int)
      requires Shape() && Indexed(c, Value()) && nId in mapInfo && !mapInfo[nId].fInTried && nRnd < c.nNewBuckets
      ensures 0 <= nUBucket < c.nNewBuckets && InBucket(nId, mapInfo[nId].addr.service, nUBucket)
    {
      var svc := mapInfo[nId].addr.service;
      nUBucket := -1;
      for n := 0 to c.nNewBuckets
        invariant nUBucket == -1
        invariant forall m :: 0 <= m < n ==> !InBucket(nId, svc, Probe(m, nRnd, c.nNewBuckets))
      {
        var nB := Probe(n, nRnd, c.nNewBuckets);
        if InBucket(nId, svc, nB) {
          return nB;
        }
      }
      ghost var b := NewEntryHasSlot(c, Value(), nId);
      TableAt(vvNew, b, c.position(svc, true, b));
      assert InBucket(nId, svc, b);
      ghost var m := ProbeReaches(b, nRnd, c.nNewBuckets);
      assert false;
    }

    method Good_(svc: Service, testBeforeEvict: bool, nTime: int, nRnd: nat)
      requires Shape() && Indexed(c, Value()) && nRnd < c.nNewBuckets
      modifies this`mapInfo, this`mapAddr, this`vRandom, this`nNew, this`nTried, this`nLastGood, this`triedCollisions, vvNew, vvTried
      ensures Shape() && Indexed(c, Value())
      ensures Value() == Good(c, old(Value()), svc, testBeforeEvict, nTime)
      ensures !testBeforeEvict ==> triedCollisions == old(triedCollisions)
    {
      hide Mid, Promote;
      GoodKeeps(c, Value(), svc, testBeforeEvict, nTime);
      nLastGood := nTime;
      if svc.ip !in mapAddr || mapAddr[svc.ip] !in mapInfo {
        return;
      }
      var nId := mapAddr[svc.ip];
      if mapInfo[nId].addr.service != svc {
        return;
      }
      MarkKeeps(c, old(Value()), nId, nTime);
      mapInfo := mapInfo[nId := mapInfo[nId].(nLastSuccess := nTime, nLastTry := nTime, nAttempts := 0)];
      if mapInfo[nId].fInTried {
        return;
      }
      Promote_(nId, testBeforeEvict, nRnd);
    }

    /** The rest of Good, for an entry that is not in the tried set. */
    method Promote_(nId: int, testBeforeEvict: bool, nRnd: nat)
      requires Shape() && Indexed(c, Value()) && nId in mapInfo && !mapInfo[nId].fInTried && nRnd < c.nNewBuckets
      modifies this`mapInfo, this`mapAddr, this`vRandom, this`nNew, this`nTried, this`nLastGood, this`triedCollisions, vvNew, vvTried
      ensures Shape()
      ensures Value() == Promote(c, old(Value()), nId, testBeforeEvict)
      ensures !testBeforeEvict ==> triedCollisions == old(triedCollisions)
    {
      hide Mid, AddrMan.MakeTried;
      var nUBucket := FindNewBucket(nId, nRnd);
      assert nUBucket != -1;
      var svc := mapInfo[nId].addr.service;
      var b := c.triedBucket(svc);
      var p := c.position(svc, false, b);
      TableAt(vvTried, b, p);
      if testBeforeEvict && vvTried[b, p] != -1 {
        ElementsCount(triedCollisions);
        if |triedCollisions| < SET_TRIED_COLLISION_SIZE {
          triedCollisions := Inserted(triedCollisions, nId);
        }
      } else {
        MakeTried(nId);
      }
    }

    /** Finds the entry for exactly this address and port. */
    method FindExact(svc: Service) returns (found: bool, nId: int)
      ensures found == Known(Value(), svc)
      ensures found ==> nId == mapAddr[svc.ip]
    {
      found, nId := false, -1;
      if svc.ip in mapAddr && mapAddr[svc.ip] in mapInfo {
        nId := mapAddr[svc.ip];
        found := mapInfo[nId].addr.service == svc;
      }
    }

    method Attempt_(svc: Service, fCountFailure: bool, nTime: int)
      modifies this`mapInfo
      ensures Value() == Attempt(old(Value()), svc, fCountFailure, nTime)
    {
      var found, nId := FindExact(svc);
      if !found {
        return;
      }
      var info := mapInfo[nId].(nLastTry := nTime);
      if fCountFailure && info.nLastCountAttempt < nLastGood {
        info := info.(nLastCountAttempt := nTime);
        info := info.(nAttempts := info.nAttempts + 1);
      }
      mapInfo := mapInfo[nId := info];
    }

    method Connected_(svc: Service, nTime: int)
      modifies this`mapInfo
      ensures Value() == Connected(old(Value()), svc, nTime)
    {
      var found, nId := FindExact(svc);
      if !found {
        return;
      }
      var info := mapInfo[nId];
      if nTime - info.addr.nTime > 20 * 60 {
        mapInfo := mapInfo[nId := info.(addr := info.addr.(nTime := U32(nTime)))];
      }
    }

    method SetServices_(svc: Service, nServices: set<nat>)
      modifies this`mapInfo
      ensures Value() == SetServices(old(Value()), svc, nServices)
    {
      var found, nId := FindExact(svc);
      if !found {
        return;
      }
      mapInfo := mapInfo[nId := mapInfo[nId].(addr := mapInfo[nId].addr.(nServices := nServices))];
    }

    method TakeSlotAt(b: int, p: int, nId: int)
      requires Shape() && 0 <= b < c.nNewBuckets && 0 <= p < c.nBucketSize && nId in mapInfo && nId != -1
      modifies this`mapInfo, vvNew
      ensures Value() == TakeSlot(old(Value()), (b, p), nId)
    {
      mapInfo := mapInfo[nId := mapInfo[nId].(nRefCount := mapInfo[nId].nRefCount + 1)];
      SetSlot(vvNew, b, p, nId);
    }

    /** Whether the slot may be taken by entry `nId`: it is free or holds something that may be overwritten. */
    method MayInsert(b: int, p: int, nId: int, now: int) returns (fInsert: bool)
      requires Shape() && 0 <= b < c.nNewBuckets && 0 <= p < c.nBucketSize && nId in mapInfo
      requires (b, p) in Value().new_ ==> Value().new_[(b, p)] in mapInfo
      ensures fInsert == !Blocked(Value(), (b, p), nId, now)
    {
      TableAt(vvNew, b, p);
      fInsert := vvNew[b, p] == -1;
      if !fInsert {
        var other := mapInfo[vvNew[b, p]];
        if IsTerrible(other, now) || (other.nRefCount > 1 && mapInfo[nId].nRefCount == 0) {
          fInsert := true;
        }
      }
    }

    /** Entry `nId` takes the slot, deleting whatever is there. */
    method Overwrite(b: int, p: int, nId: int)
      requires Shape() && 0 <= b < c.nNewBuckets && 0 <= p < c.nBucketSize && nId != -1 && RandOk(Value())
      requires vvNew[b, p] != -1 ==> vvNew[b, p] in mapInfo && !mapInfo[vvNew[b, p]].fInTried && mapInfo[vvNew[b, p]].nRefCount > 0
      requires (b, p) in Value().new_ ==> Value().new_[(b, p)] in mapInfo
      requires nId in AddrMan.ClearNew(Value(), (b, p)).mapInfo
      modifies this`mapInfo, this`mapAddr, this`vRandom, this`nNew, vvNew
      ensures (b, p) in old(Value()).new_ ==> old(Value()).new_[(b, p)] in old(mapInfo)
      ensures Value() == TakeSlot(AddrMan.ClearNew(old(Value()), (b, p)), (b, p), nId)
    {
      ClearNew(b, p);
      TakeSlotAt(b, p, nId);
    }

    /** The last part of Add_: entry `nId` tries to get the new slot that `source` gives. */
    method PlaceNew_(nId: int, source: NetAddr, now: int, ghost created: bool)
      requires Shape() && Placeable(c, Value(), nId, created)
      modifies this`mapInfo, this`mapAddr, this`vRandom, this`nNew, vvNew
      ensures Value() == PlaceNew(c, old(Value()), nId, source, now, created)
    {
      hide RandOk, TriedOk, RefOk, CountOk, AddrOk, AddrMan.ClearNew, AddrMan.Delete;
      ghost var limbo, extra := if created then {nId} else {}, if created then 1 else 0;
      var svc := mapInfo[nId].addr.service;
      var b := c.newBucket(svc, source);
      var p := c.position(svc, true, b);
      TableAt(vvNew, b, p);
      ClearNewReady(c, Value(), b, p, limbo, extra);
      if vvNew[b, p] != nId {
        var fInsert := MayInsert(b, p, nId, now);
        if fInsert {
          ClearNewTouches(c, Value(), (b, p), limbo, extra);
          Overwrite(b, p, nId);
        } else if mapInfo[nId].nRefCount == 0 {
          Delete(nId);
        }
      }
    }

    /** `draw` is the random number of the stochastic test; the result says that an entry was created. */
    method Add_(addr: Address, source: NetAddr, nTimePenalty: int, now: int, draw: nat) returns (fNew: bool)
      requires Shape() && Indexed(c, Value())
      modifies this`nIdCount, this`mapInfo, this`mapAddr, this`vRandom, this`nNew, vvNew
      ensures (Value(), fNew) == Add(c, old(Value()), addr, source, nTimePenalty, now, draw)
    {
      hide Table, Sized;
      fNew := false;
      if !c.routable(addr.service.ip) {
        return;
      }
      var penalty := if addr.service.ip == source then 0 else nTimePenalty;
      if addr.service.ip in mapAddr {
        AddKnown(mapAddr[addr.service.ip], addr, source, penalty, now, draw);
      } else {
        EnrolledPlaceable(c, Value(), addr, source, penalty);
        var nId := Enrol(addr, source, penalty);
        fNew := true;
        PlaceNew_(nId, source, now, true);
      }
    }

    method Enrol(addr: Address, source: NetAddr, penalty: int) returns (nId: int)
      modifies this`nIdCount, this`mapInfo, this`mapAddr, this`vRandom, this`nNew
      ensures nId == old(nIdCount) && Value() == Enrolled(old(Value()), addr, source, penalty)
    {
      nId := Create(addr, source);
      mapInfo := mapInfo[nId := mapInfo[nId].(addr := mapInfo[nId].addr.(nTime := U32(Max(0, mapInfo[nId].addr.nTime - penalty))))];
      nNew := nNew + 1;
    }

    /** The part of Add_ for an address that is known already. */
    method AddKnown(nId: int, addr: Address, source: NetAddr, penalty: int, now: int, draw: nat)
      requires Shape() && Indexed(c, Value()) && nId in mapInfo
      modifies this`mapInfo, this`mapAddr, this`vRandom, this`nNew, vvNew
      ensures var s1 := PutInfo(old(Value()), nId, Announced(old(mapInfo)[nId], addr, penalty, now));
              if NothingNew(s1.mapInfo[nId], addr, draw) then Value() == s1
              else Placeable(c, s1, nId, false) && Value() == PlaceNew(c, s1, nId, source, now, false)
    {
      hide Mid, PlaceNew, Placeable;
      var info := mapInfo[nId];
      var fCurrentlyOnline := now - addr.nTime < 24 * 60 * 60;
      var nUpdateInterval := if fCurrentlyOnline then 60 * 60 else 24 * 60 * 60;
      if addr.nTime != 0 && (info.addr.nTime == 0 || info.addr.nTime < addr.nTime - nUpdateInterval - penalty) {
        info := info.(addr := info.addr.(nTime := U32(Max(0, addr.nTime - penalty))));
      }
      info := info.(addr := info.addr.(nServices := info.addr.nServices + addr.nServices));
      assert info == Announced(mapInfo[nId], addr, penalty, now);
      mapInfo := mapInfo[nId := info];
      if addr.nTime == 0 || (info.addr.nTime != 0 && addr.nTime <= info.addr.nTime) {
        return;
      }
      if info.fInTried {
        return;
      }
      if info.nRefCount == NEW_BUCKETS_PER_ADDRESS {
        return;
      }
      var nFactor := Factor(info.nRefCount);
      if nFactor > 1 && draw % nFactor != 0 {
        return;
      }
      AnnouncedPlaceable(c, old(Value()), nId, addr, penalty, now);
      PlaceNew_(nId, source, now, false);
    }

    /** A partial shuffle of vRandom that collects addresses that are not terrible; `draws` are the random numbers. */
    method GetAddr_(now: int, draws: nat -> nat) returns (vAddr: seq<Address>)
      requires RandOk(Value())
      modifies this`mapInfo, this`vRandom
      ensures (Value(), vAddr) == Gather(old(Value()), now, draws, GetAddrLimit(old(Value())), 0, [])
    {
      hide Drawn, RandOk, AddrMan.SwapRandom;
      var nNodes := GETADDR_MAX_PCT * |vRandom| / 100;
      if nNodes > GETADDR_MAX {
        nNodes := GETADDR_MAX;
      }
      vAddr := [];
      ghost var s0 := Value();
      var n := 0;
      while n < |vRandom| && |vAddr| < nNodes
        invariant 0 <= n && nNodes == GetAddrLimit(s0) && |vRandom| == |s0.vRandom| && RandOk(Value())
        invariant Gather(Value(), now, draws, nNodes, n, vAddr) == Gather(s0, now, draws, nNodes, 0, [])
      {
        ghost var s1 := GatherNext(Value(), now, draws, nNodes, n, vAddr);
        var nRndPos := Drawn_(draws, n);
        SwapRandom(n, nRndPos);
        assert Value() == s1;
        var ai := mapInfo[vRandom[n]];
        if !IsTerrible(ai, now) {
          vAddr := vAddr + [ai.addr];
        }
        n := n + 1;
      }
    }

    method Drawn_(draws: nat -> nat, n: nat) returns (i: nat)
      requires n < |vRandom|
      ensures i == Drawn(Value(), draws, n)
    {
      i := draws(n) % (|vRandom| - n) + n;
    }

    /** What to do about the pending entry `idNew`. */
    method Judge_(idNew: int, now: int) returns (verdict: Verdict)
      requires Shape() && Indexed(c, Value())
      ensures verdict == Judge(c, Value(), idNew, now)
    {
      if idNew !in mapInfo {
        return Drop;
      }
      var infoNew := mapInfo[idNew];
      var b := c.triedBucket(infoNew.addr.service);
      var p := c.position(infoNew.addr.service, false, b);
      TableAt(vvTried, b, p);
      if !c.valid(infoNew.Ip()) {
        return Drop;
      } else if vvTried[b, p] != -1 {
        var infoOld := mapInfo[vvTried[b, p]];
        if now - infoOld.nLastSuccess < REPLACEMENT_HOURS * (60 * 60) {
          return Drop;
        } else if now - infoOld.nLastTry < REPLACEMENT_HOURS * (60 * 60) {
          if now - infoOld.nLastTry > 60 {
            return Replace;
          }
        } else if now - infoNew.nLastSuccess > TEST_WINDOW {
          return Replace;
        }
        return Keep;
      }
      return Replace;
    }

    /** `draws` are the random starting points of the searches. */
    method ResolveCollisions_(now: int, draws: nat -> nat)
      requires Shape() && Indexed(c, Value()) && c.nNewBuckets > 0
      modifies this`mapInfo, this`mapAddr, this`vRandom, this`nNew, this`nTried, this`nLastGood, this`triedCollisions, vvNew, vvTried
      ensures Shape() && Indexed(c, Value())
      ensures Value() == Resolve(c, old(Value()), now, old(triedCollisions))
    {
      hide Indexed, Table, Elements, Sized;
      ghost var s0, pending := Value(), triedCollisions;
      var it := 0;
      ghost var k := 0;
      while it < |triedCollisions|
        invariant Shape() && Indexed(c, Value())
        invariant 0 <= it && 0 <= k && SameRest(triedCollisions, it, pending, k)
        invariant Value() == Fold(ResolveFn(c, now), s0, pending, k)
        decreases |triedCollisions| - it
      {
        it := ResolveTurn(it, now, Probe(0, draws(it), c.nNewBuckets), s0, pending, k);
        k := k + 1;
      }
    }

    /** One turn of the loop over the pending ids; the result is the next position. */
    method ResolveTurn(it: nat, now: int, nRnd: nat, ghost s0: State, ghost pending: seq<int>, ghost k: nat) returns (next: nat)
      requires Shape() && Indexed(c, Value()) && it < |triedCollisions| && nRnd < c.nNewBuckets
      requires SameRest(triedCollisions, it, pending, k) && Value() == Fold(ResolveFn(c, now), s0, pending, k)
      modifies this`mapInfo, this`mapAddr, this`vRandom, this`nNew, this`nTried, this`nLastGood, this`triedCollisions, vvNew, vvTried
      ensures Shape() && Indexed(c, Value())
      ensures SameRest(triedCollisions, next, pending, k + 1) && Value() == Fold(ResolveFn(c, now), s0, pending, k + 1)
      ensures |triedCollisions| - next < old(|triedCollisions|) - it
    {
      ghost var before, xs := Value(), triedCollisions;
      ghost var after := ResolvedState(c, Value(), xs[it], now);
      var erased := ResolveAt(it, now, nRnd);
      assert Value() == after;
      next := if erased then it else it + 1;
      RestShrinks(xs, it, pending, k);
      FoldNext(ResolveFn(c, now), s0, pending, k, before, after);
    }

    method ResolveAt(it: nat, now: int, nRnd: nat) returns (erased: bool)
      requires Shape() && Indexed(c, Value()) && it < |triedCollisions| && nRnd < c.nNewBuckets
      modifies this`mapInfo, this`mapAddr, this`vRandom, this`nNew, this`nTried, this`nLastGood, this`triedCollisions, vvNew, vvTried
      ensures Shape()
      ensures Value() == ResolveStep(c, old(Value()), old(triedCollisions[it]), now)
      ensures triedCollisions == if erased then old(triedCollisions[..it] + triedCollisions[it + 1..]) else old(triedCollisions)
    {
      hide Mid, Good;
      var idNew := triedCollisions[it];
      var verdict := Judge_(idNew, now);
      erased := verdict != Keep;
      if verdict == Replace {
        Good_(mapInfo[idNew].addr.service, false, now, nRnd);
      }
      if erased {
        Erase(it);
      }
    }

    method Erase(it: nat)
      requires Ascending(triedCollisions) && it < |triedCollisions|
      modifies this`triedCollisions
      ensures Ascending(triedCollisions)
      ensures triedCollisions == old(triedCollisions[..it] + triedCollisions[it + 1..])
      ensures Elements(triedCollisions) == old(Elements(triedCollisions)) - {old(triedCollisions[it])}
    {
      Removed(triedCollisions, it);
      triedCollisions := triedCollisions[..it] + triedCollisions[it + 1..];
    }

    /** The entry that a pending one would evict; `draw` picks the pending one.  An id that is no longer known is
        dropped instead; an empty slot is looked up as if it held an id. */
    method SelectTriedCollision_(draw: nat) returns (info: AddrInfo)
      requires Shape() && Indexed(c, Value())
      modifies this`triedCollisions, this`mapInfo
      ensures Shape()
      ensures old(triedCollisions) == [] ==> info == NO_INFO && Value() == old(Value())
      ensures old(triedCollisions) != [] ==>
                var id := old(triedCollisions)[draw % |old(triedCollisions)|];
                && Value() == AfterSelect(c, old(Value()), id)
                && if id !in old(mapInfo) then info == NO_INFO
                   else
                     var u := TriedSlot(c, old(mapInfo)[id].addr.service);
                     if u in Value().tried then Value().tried[u] in mapInfo && info == mapInfo[Value().tried[u]] && info.fInTried
                     else info == NO_INFO
    {
      info := NO_INFO;
      if |triedCollisions| == 0 {
        return;
      }
      var it := draw % |triedCollisions|;
      var idNew := triedCollisions[it];
      if idNew !in mapInfo {
        Erase(it);
        return;
      }
      var newInfo := mapInfo[idNew];
      var b := c.triedBucket(newInfo.addr.service);
      var p := c.position(newInfo.addr.service, false, b);
      TableAt(vvTried, b, p);
      var idOld := vvTried[b, p];
      if idOld !in mapInfo {
        mapInfo := mapInfo[idOld := NO_INFO];
      }
      info := mapInfo[idOld];
    }
  }
}
