/**
 The address manager on disk.  Only the entries and their new buckets are
 written; every index is rebuilt on reading.  Reading back what a consistent
 manager wrote loses no address and gives a consistent manager again.
 */
module AddrManDisk {
  import opened Basics
  import opened AddrMan

  type Asmap = seq<bool>

  /** What is stored of an entry. */
  datatype Record = Record(addr: Address, source: NetAddr, nLastSuccess: int, nAttempts: int)

  function Saved(info: AddrInfo): Record { Record(info.addr, info.source, info.nLastSuccess, info.nAttempts) }

  function Restored(r: Record): AddrInfo { AddrInfo(r.addr, r.source, 0, 0, r.nLastSuccess, r.nAttempts, 0, false, -1) }

  /** The fields of the stream in their order. */
  datatype Image = Image(
    nVersion: int,
    nKeySize: int,
    nKey: nat,
    nNew: int,
    nTried: int,
    nUBuckets: int,
    newInfos: seq<Record>,
    triedInfos: seq<Record>,
    buckets: seq<seq<int>>,
    asmapVersion: nat)

  /** The keyed hashes that a key and an address map give, and the digest of an address map. */
  datatype Env = Env(hashes: (nat, Asmap) -> Config, digest: Asmap -> nat)

  function AsmapVersion(env: Env, asmap: Asmap): nat { if asmap == [] then 0 else env.digest(asmap) }

  const VERSION := 2
  const KEY_SIZE := 32

  /** Exclusive or with 2^30. */
  function Flip(n: int): int { if n / 0x4000_0000 % 2 == 0 then n + 0x4000_0000 else n - 0x4000_0000 }

  lemma FlipTwice(n: int)
    ensures Flip(Flip(n)) == n
  {
    var q := n / 0x4000_0000;
    assert (n + 0x4000_0000) / 0x4000_0000 == q + 1 && (n - 0x4000_0000) / 0x4000_0000 == q - 1;
  }

  function AtLeastZero(n: int): (m: nat)
    ensures m == n || (n < 0 && m == 0)
  {
    if n < 0 then 0 else n
  }

  // ------------------------------------------------------------------
  // Writing
  // ------------------------------------------------------------------

  predicate Selected(info: AddrInfo, fTried: bool) { if fTried then info.fInTried else info.nRefCount != 0 }

  /** The ids below `n` that are written, in order. */
  function IdsBelow(m: map<int, AddrInfo>, fTried: bool, n: nat): (ids: seq<int>)
    ensures forall i :: 0 <= i < |ids| ==> ids[i] in m && Selected(m[ids[i]], fTried) && 0 <= ids[i] < n
    ensures |ids| <= n
  {
    if n == 0 then []
    else
      var rest := IdsBelow(m, fTried, n - 1);
      if n - 1 in m && Selected(m[n - 1], fTried) then rest + [n - 1] else rest
  }

  function Records(m: map<int, AddrInfo>, ids: seq<int>): seq<Record>
    requires forall i :: 0 <= i < |ids| ==> ids[i] in m
  {
    seq(|ids|, i requires 0 <= i < |ids| => Saved(m[ids[i]]))
  }

  /** The index under which a new entry is written. */
  function UnkId(m: map<int, AddrInfo>, id: int): nat { |IdsBelow(m, false, AtLeastZero(id))| }

  /** The indexes of the entries in the first `n` places of bucket `b`. */
  function Indexes(s: State, b: int, n: nat): seq<int> {
    if n == 0 then []
    else
      var rest := Indexes(s, b, n - 1);
      if (b, n - 1) in s.new_ then rest + [UnkId(s.mapInfo, s.new_[(b, n - 1)])] else rest
  }

  function Save(c: Config, s: State, nKey: nat, asmapVersion: nat): Image {
    var nIds := AtLeastZero(s.nIdCount);
    Image(VERSION, KEY_SIZE, nKey, s.nNew, s.nTried, Flip(c.nNewBuckets),
          Records(s.mapInfo, IdsBelow(s.mapInfo, false, nIds)),
          Records(s.mapInfo, IdsBelow(s.mapInfo, true, nIds)),
          seq(c.nNewBuckets, b requires 0 <= b < c.nNewBuckets => Indexes(s, b, c.nBucketSize)),
          asmapVersion)
  }

  // ------------------------------------------------------------------
  // Reading
  // ------------------------------------------------------------------

  function UBuckets(img: Image): int { if img.nVersion != 0 then Flip(img.nUBuckets) else img.nUBuckets }

  /** The stream does not end early. */
  predicate Complete(img: Image) {
    img.nNew <= |img.newInfos| && img.nTried <= |img.triedInfos| && UBuckets(img) <= |img.buckets|
  }

  /** Adds an entry to everything but the tables. */
  function Admit(s: State, id: int, r: Record, fTried: bool): State {
    s.(mapInfo := s.mapInfo[id := Restored(r).(nRandomPos := |s.vRandom|, fInTried := fTried)],
       mapAddr := s.mapAddr[r.addr.service.ip := id],
       vRandom := s.vRandom + [id])
  }

  lemma AdmitRandOk(s: State, id: int, r: Record, fTried: bool)
    requires RandOk(s) && id !in s.mapInfo
    ensures RandOk(Admit(s, id, r, fTried)) && Admit(s, id, r, fTried).mapInfo.Keys == s.mapInfo.Keys + {id}
  {
  }

  lemma RandSame(s: State, s': State)
    requires RandOk(s) && s'.mapInfo == s.mapInfo && s'.vRandom == s.vRandom
    ensures RandOk(s')
  {
  }

  lemma NothingRandOk(img: Image)
    ensures RandOk(Empty().(nNew := img.nNew, nTried := img.nTried))
  {
  }

  function LoadNew(img: Image, n: nat): (s: State)
    requires n <= |img.newInfos|
    ensures RandOk(s) && (forall i :: i in s.mapInfo <==> 0 <= i < n)
  {
    hide RandOk, Admit;
    NothingRandOk(img);
    if n == 0 then Empty().(nNew := img.nNew, nTried := img.nTried)
    else
      var s := LoadNew(img, n - 1);
      AdmitRandOk(s, n - 1, img.newInfos[n - 1], false);
      Admit(s, n - 1, img.newInfos[n - 1], false)
  }

  /** The entries after `n` tried records, and the number of those that found their slot taken. */
  function LoadTried(c: Config, img: Image, s: State, n: nat): (r: (State, nat))
    requires n <= |img.triedInfos| && RandOk(s) && forall i :: i in s.mapInfo ==> i < s.nIdCount
    ensures RandOk(r.0) && r.0.nIdCount >= s.nIdCount
    ensures forall i :: i in r.0.mapInfo <==> i in s.mapInfo || s.nIdCount <= i < r.0.nIdCount
  {
    hide RandOk, Admit;
    if n == 0 then (s, 0)
    else
      var (s1, nLost) := LoadTried(c, img, s, n - 1);
      var info := img.triedInfos[n - 1];
      var u := TriedSlot(c, info.addr.service);
      if u in s1.tried then (s1, nLost + 1)
      else
        AdmitRandOk(s1, s1.nIdCount, info, true);
        RandSame(Admit(s1, s1.nIdCount, info, true),
                 Admit(s1, s1.nIdCount, info, true).(tried := WithSlot(s1.tried, u, s1.nIdCount), nIdCount := s1.nIdCount + 1));
        (Admit(s1, s1.nIdCount, info, true).(tried := WithSlot(s1.tried, u, s1.nIdCount), nIdCount := s1.nIdCount + 1), nLost)
  }

  lemma LoadTriedNone(c: Config, img: Image, s: State)
    requires RandOk(s) && (forall i :: i in s.mapInfo ==> i < s.nIdCount)
    ensures LoadTried(c, img, s, 0) == (s, 0)
  {
  }

  lemma LoadTriedNext(c: Config, img: Image, s: State, n: nat, s1: State, nLost: nat)
    requires n < |img.triedInfos| && RandOk(s) && (forall i :: i in s.mapInfo ==> i < s.nIdCount)
    requires LoadTried(c, img, s, n) == (s1, nLost)
    ensures var info := img.triedInfos[n];
            var u := TriedSlot(c, info.addr.service);
            LoadTried(c, img, s, n + 1)
            == if u in s1.tried then (s1, nLost + 1)
               else (Admit(s1, s1.nIdCount, info, true).(tried := WithSlot(s1.tried, u, s1.nIdCount), nIdCount := s1.nIdCount + 1), nLost)
  {
    hide RandOk, Admit, TriedSlot;
  }

  /** The first `n` indexes of a bucket's list are noted. */
  function Note(nNew: int, e: map<int, int>, xs: seq<int>, bucket: int, n: nat): map<int, int>
    requires n <= |xs|
  {
    if n == 0 then e
    else
      var e1 := Note(nNew, e, xs, bucket, n - 1);
      if 0 <= xs[n - 1] < nNew then e1[xs[n - 1] := bucket] else e1
  }

  /** Which bucket each new entry was last seen in, among the first `b`. */
  function EntryToBucket(img: Image, b: nat): map<int, int>
    requires b <= |img.buckets|
  {
    if b == 0 then map[]
    else Note(img.nNew, EntryToBucket(img, b - 1), img.buckets[b - 1], b - 1, |img.buckets[b - 1]|)
  }

  /** The stored buckets still mean something here. */
  predicate Reusable(env: Env, asmap: Asmap, c: Config, img: Image) {
    && img.nVersion == VERSION && UBuckets(img) == c.nNewBuckets
    && (if img.nVersion > 1 then img.asmapVersion else 0) == AsmapVersion(env, asmap)
  }

  lemma PlaceRandOk(s: State, u: Slot, id: int)
    requires RandOk(s) && id in s.mapInfo
    ensures RandOk(TakeSlot(s, u, id)) && TakeSlot(s, u, id).mapInfo.Keys == s.mapInfo.Keys
  {
    RandFrame(s, TakeSlot(s, u, id));
  }

  /** Gives new entry `n` a slot: in its stored bucket or, failing that, in the bucket that its source gives. */
  function PlaceOne(c: Config, s: State, e: map<int, int>, reuse: bool, n: int): (r: State)
    requires RandOk(s) && n in s.mapInfo
    ensures RandOk(r) && r.mapInfo.Keys == s.mapInfo.Keys
  {
    var info := s.mapInfo[n];
    var u := NewSlotIn(c, info.addr.service, if n in e then e[n] else 0);
    var v := NewSlot(c, info.addr.service, info.source);
    PlaceRandOk(s, u, n);
    PlaceRandOk(s, v, n);
    if reuse && u !in s.new_ && info.nRefCount < NEW_BUCKETS_PER_ADDRESS then TakeSlot(s, u, n)
    else if v in s.new_ then s
    else TakeSlot(s, v, n)
  }

  function PlaceAll(c: Config, s: State, e: map<int, int>, reuse: bool, n: nat): (r: State)
    requires RandOk(s) && forall i :: 0 <= i < n ==> i in s.mapInfo
    ensures RandOk(r) && r.mapInfo.Keys == s.mapInfo.Keys
  {
    if n == 0 then s
    else
      var s1 := PlaceAll(c, s, e, reuse, n - 1);
      assert n - 1 in s.mapInfo.Keys;
      PlaceOne(c, s1, e, reuse, n - 1)
  }

  lemma DeleteRandOk(s: State, id: int)
    requires RandOk(s) && id in s.mapInfo
    ensures RandOk(Delete(s, id))
  {
    hide SwapRandom;
    var i, last := s.mapInfo[id].nRandomPos, |s.vRandom| - 1;
    SwapRandOk(s, i, last);
    SwapMoves(s, i, last);
    PopRandOk(SwapRandom(s, i, last), id);
  }

  /** Deletes the entries with ids from `lo` up to `hi` that got no slot. */
  function Prune(s: State, lo: int, hi: int): (r: State)
    requires RandOk(s)
    ensures RandOk(r)
    decreases hi - lo
  {
    if hi <= lo then s
    else
      var s1 := Prune(s, lo, hi - 1);
      if hi - 1 in s1.mapInfo && !s1.mapInfo[hi - 1].fInTried && s1.mapInfo[hi - 1].nRefCount == 0
      then DeleteRandOk(s1, hi - 1); Delete(s1, hi - 1)
      else s1
  }

  function Load(env: Env, asmap: Asmap, img: Image): Option<State> {
    var c := env.hashes(img.nKey, asmap);
    if img.nKeySize != KEY_SIZE || img.nNew > c.nNewBuckets * c.nBucketSize || img.nTried > c.nTriedBuckets * c.nBucketSize
    then None
    else if !Complete(img) then None
    else
      var nNew := AtLeastZero(img.nNew);
      var s1 := LoadNew(img, nNew).(nIdCount := img.nNew);
      var (s2, nLost) := LoadTried(c, img, s1, AtLeastZero(img.nTried));
      var e := EntryToBucket(img, AtLeastZero(UBuckets(img)));
      var s3 := PlaceAll(c, s2.(nTried := img.nTried - nLost), e, Reusable(env, asmap, c, img), nNew);
      Some(Prune(s3, if img.nNew < 0 then img.nNew else 0, s3.nIdCount))
  }
}
