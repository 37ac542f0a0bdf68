/**
 Reading an image that was written under another address map, with another
 number of buckets, or by another version.  Entries may then compete for
 slots.  Whatever survives is indexed as it should be, and what is lost is
 exactly what found its slots taken.
 */
module AddrManReload {
  import opened AddrMan
  import opened AddrManDisk
  import opened AddrManRoundTrip

  // ------------------------------------------------------------------
  // Tried records: the first one in a slot stays
  // ------------------------------------------------------------------

  /** One of the first `n` records belongs in tried slot `u`. */
  predicate Taken(c: Config, rs: seq<Record>, n: nat, u: Slot)
    requires n <= |rs|
  {
    exists i :: 0 <= i < n && TriedSlot(c, rs[i].addr.service) == u
  }

  predicate FirstInSlot(c: Config, rs: seq<Record>, j: nat)
    requires j < |rs|
  {
    !Taken(c, rs, j, TriedSlot(c, rs[j].addr.service))
  }

  /** Where the records are, among the first `n`, that are the first in their slots. */
  function FirstIds(c: Config, rs: seq<Record>, n: nat): (ids: seq<nat>)
    requires n <= |rs|
    ensures |ids| <= n && forall k :: 0 <= k < |ids| ==> ids[k] < n && FirstInSlot(c, rs, ids[k])
    ensures forall k, l :: 0 <= k < l < |ids| ==> ids[k] < ids[l]
  {
    if n == 0 then []
    else
      var ids := FirstIds(c, rs, n - 1);
      if FirstInSlot(c, rs, n - 1) then ids + [n - 1] else ids
  }

  lemma {:induction false} FirstIdsAll(c: Config, rs: seq<Record>, n: nat, j: nat)
    requires j < n <= |rs| && FirstInSlot(c, rs, j)
    ensures j in FirstIds(c, rs, n)
  {
    hide FirstInSlot;
    if j < n - 1 {
      FirstIdsAll(c, rs, n - 1, j);
    } else {
      assert FirstIds(c, rs, n)[|FirstIds(c, rs, n - 1)|] == j;
    }
  }

  lemma {:induction false} FirstIdsPrefix(c: Config, rs: seq<Record>, n: nat, m: nat)
    requires n <= m <= |rs|
    ensures FirstIds(c, rs, n) <= FirstIds(c, rs, m)
  {
    hide FirstInSlot;
    if n < m {
      FirstIdsPrefix(c, rs, n, m - 1);
    }
  }

  function Pick(rs: seq<Record>, ids: seq<nat>): seq<Record>
    requires forall k :: 0 <= k < |ids| ==> ids[k] < |rs|
  {
    seq(|ids|, k requires 0 <= k < |ids| => rs[ids[k]])
  }

  /** The image without the tried records that are lost. */
  function Thinned(c: Config, img: Image): Image {
    var ks := Pick(img.triedInfos, FirstIds(c, img.triedInfos, |img.triedInfos|));
    img.(triedInfos := ks, nTried := |ks|)
  }

  lemma ThinnedReadable(c: Config, img: Image)
    requires Wellformed(c, img)
    ensures Readable(c, Thinned(c, img))
  {
    hide TriedSlot;
    var rs, us := img.triedInfos, img.newInfos;
    var ids := FirstIds(c, rs, |rs|);
    var ks := Pick(rs, ids);
    forall k, l | 0 <= k < l < |ks| ensures TriedSlot(c, ks[k].addr.service) != TriedSlot(c, ks[l].addr.service) {
      assert FirstInSlot(c, rs, ids[l]) && ids[k] < ids[l];
    }
    ThinnedIps(us, rs, ids);
  }

  lemma ThinnedIps(us: seq<Record>, rs: seq<Record>, ids: seq<nat>)
    requires DistinctIps(us + rs) && (forall k :: 0 <= k < |ids| ==> ids[k] < |rs|)
    requires forall k, l :: 0 <= k < l < |ids| ==> ids[k] < ids[l]
    ensures DistinctIps(us + Pick(rs, ids))
  {
    var all, was := us + Pick(rs, ids), us + rs;
    forall i, j | 0 <= i < j < |all| ensures all[i].addr.service.ip != all[j].addr.service.ip {
      var i', j' := if i < |us| then i else |us| + ids[i - |us|], if j < |us| then j else |us| + ids[j - |us|];
      assert all[i] == was[i'] && all[j] == was[j'] && i' < j';
    }
  }

  /** What reading the first `n` tried records gives, in full and thinned out. */
  ghost predicate ReadAlike(c: Config, img: Image, thin: Image, s: State, n: nat, s': State)
    requires n <= |img.triedInfos| && RandOk(s) && (forall i :: i in s.mapInfo ==> i < s.nIdCount)
  {
    var k := |FirstIds(c, img.triedInfos, n)|;
    && LoadTried(c, img, s, n) == (s', n - k)
    && k <= |thin.triedInfos| && LoadTried(c, thin, s, k) == (s', 0)
    && forall u :: u in s'.tried <==> Taken(c, img.triedInfos, n, u)
  }

  lemma {:induction false} LoadTriedThin(c: Config, img: Image, thin: Image, s: State, n: nat) returns (s': State)
    requires n <= |img.triedInfos| && RandOk(s) && (forall i :: i in s.mapInfo ==> i < s.nIdCount)
    requires s.tried == map[] && s.nIdCount >= 0 && Pick(img.triedInfos, FirstIds(c, img.triedInfos, n)) <= thin.triedInfos
    ensures ReadAlike(c, img, thin, s, n, s')
  {
    hide RandOk, Pick, ReadAlike;
    var rs := img.triedInfos;
    if n == 0 {
      s' := s;
      NothingRead(c, img, thin, s);
    } else {
      FirstIdsPrefix(c, rs, n - 1, n);
      PickPrefix(rs, FirstIds(c, rs, n - 1), FirstIds(c, rs, n), thin.triedInfos);
      var s1 := LoadTriedThin(c, img, thin, s, n - 1);
      s' := ThinStep(c, img, thin, s, n - 1, s1);
    }
  }

  lemma NothingRead(c: Config, img: Image, thin: Image, s: State)
    requires RandOk(s) && (forall i :: i in s.mapInfo ==> i < s.nIdCount) && s.tried == map[]
    ensures ReadAlike(c, img, thin, s, 0, s)
  {
    hide RandOk, Taken, LoadTried;
    NoneTaken(c, img.triedInfos);
    LoadTriedNone(c, img, s);
    LoadTriedNone(c, thin, s);
  }

  lemma ThinStep(c: Config, img: Image, thin: Image, s: State, n: nat, s1: State) returns (s': State)
    requires n < |img.triedInfos| && RandOk(s) && (forall i :: i in s.mapInfo ==> i < s.nIdCount) && s.nIdCount >= 0
    requires ReadAlike(c, img, thin, s, n, s1)
    requires var ids' := FirstIds(c, img.triedInfos, n + 1);
             |ids'| <= |thin.triedInfos| && forall k :: 0 <= k < |ids'| ==> thin.triedInfos[k] == img.triedInfos[ids'[k]]
    ensures ReadAlike(c, img, thin, s, n + 1, s')
  {
    hide RandOk, TriedSlot, Admit, Taken, FirstIds, FirstInSlot, LoadTried;
    var rs, k := img.triedInfos, |FirstIds(c, img.triedInfos, n)|;
    TakenNext(c, rs, n);
    NextFirst(c, rs, n);
    LoadTriedNext(c, img, s, n, s1, n - k);
    s' := LoadTried(c, img, s, n + 1).0;
    AdmitFrame(s1, s1.nIdCount, rs[n], true);
    if FirstInSlot(c, rs, n) {
      LoadTriedNext(c, thin, s, k, s1, 0);
    }
  }

  lemma NoneTaken(c: Config, rs: seq<Record>)
    ensures FirstIds(c, rs, 0) == [] && forall u :: !Taken(c, rs, 0, u)
  {
  }

  lemma TakenNext(c: Config, rs: seq<Record>, n: nat)
    requires n < |rs|
    ensures forall u :: Taken(c, rs, n + 1, u) <==> Taken(c, rs, n, u) || u == TriedSlot(c, rs[n].addr.service)
  {
    forall u ensures Taken(c, rs, n + 1, u) <==> Taken(c, rs, n, u) || u == TriedSlot(c, rs[n].addr.service) {
      if Taken(c, rs, n, u) {
        var i :| 0 <= i < n && TriedSlot(c, rs[i].addr.service) == u;
        assert TriedSlot(c, rs[i].addr.service) == u;
      }
    }
  }

  lemma NextFirst(c: Config, rs: seq<Record>, n: nat)
    requires n < |rs|
    ensures FirstIds(c, rs, n + 1) == if FirstInSlot(c, rs, n) then FirstIds(c, rs, n) + [n] else FirstIds(c, rs, n)
    ensures FirstInSlot(c, rs, n) <==> !Taken(c, rs, n, TriedSlot(c, rs[n].addr.service))
  {
  }

  lemma PickPrefix(rs: seq<Record>, ids: seq<nat>, ids': seq<nat>, ks: seq<Record>)
    requires ids <= ids' && (forall k :: 0 <= k < |ids'| ==> ids'[k] < |rs|) && Pick(rs, ids') <= ks
    ensures (forall k :: 0 <= k < |ids| ==> ids[k] < |rs|) && Pick(rs, ids) <= ks
    ensures |ids'| <= |ks| && forall k :: 0 <= k < |ids'| ==> ks[k] == rs[ids'[k]]
  {
    assert forall k :: 0 <= k < |ids| ==> ids[k] == ids'[k];
    assert forall k :: 0 <= k < |ids'| ==> Pick(rs, ids')[k] == ks[k];
    assert Pick(rs, ids) == ks[..|ids|];
  }

  // ------------------------------------------------------------------
  // New records: each takes the first of its slots that is free
  // ------------------------------------------------------------------

  /** The slot in the bucket noted for record `i`, and the slot that its source gives. */
  function NotedSlot(c: Config, rs: seq<Record>, e: map<int, int>, i: nat): Slot
    requires i < |rs|
  {
    NewSlotIn(c, rs[i].addr.service, if i in e then e[i] else 0)
  }

  function SourceSlot(c: Config, rs: seq<Record>, i: nat): Slot
    requires i < |rs|
  {
    NewSlot(c, rs[i].addr.service, rs[i].source)
  }

  /** The new table after the first `n` records have looked for a slot. */
  function Seats(c: Config, rs: seq<Record>, e: map<int, int>, reuse: bool, n: nat): map<Slot, int>
    requires n <= |rs|
  {
    if n == 0 then map[]
    else
      var t := Seats(c, rs, e, reuse, n - 1);
      if reuse && NotedSlot(c, rs, e, n - 1) !in t then t[NotedSlot(c, rs, e, n - 1) := n - 1]
      else if SourceSlot(c, rs, n - 1) !in t then t[SourceSlot(c, rs, n - 1) := n - 1]
      else t
  }

  /** Record `i` finds one of its slots free. */
  predicate Seated(c: Config, rs: seq<Record>, e: map<int, int>, reuse: bool, i: nat)
    requires i < |rs|
  {
    var t := Seats(c, rs, e, reuse, i);
    (reuse && NotedSlot(c, rs, e, i) !in t) || SourceSlot(c, rs, i) !in t
  }

  /** The entries that have no slot after the first `n` records have looked for one. */
  ghost function Standing(c: Config, rs: seq<Record>, e: map<int, int>, reuse: bool, n: nat): set<int> {
    set i: int | i in Firsts(|rs|) && (i >= n || !Seated(c, rs, e, reuse, i))
  }

  ghost predicate BucketsFit(c: Config, e: map<int, int>) { forall i :: i in e ==> 0 <= e[i] < c.nNewBuckets }

  lemma NotedFits(c: Config, rs: seq<Record>, e: map<int, int>, i: nat)
    requires Sized(c) && BucketsFit(c, e) && i < |rs|
    ensures var u := NotedSlot(c, rs, e, i); 0 <= u.0 < c.nNewBuckets && u == NewSlotIn(c, rs[i].addr.service, u.0)
  {
    assert 0 <= c.newBucket(rs[i].addr.service, 0) < c.nNewBuckets;
  }

  /** One record looks for a slot. */
  lemma SeatStep(c: Config, img: Image, e: map<int, int>, reuse: bool, s: State, n: nat)
    requires n < |img.newInfos| && (reuse ==> BucketsFit(c, e)) && Holds(img, s, |All(img)|) && RandOk(s)
    requires s.new_ == Seats(c, img.newInfos, e, reuse, n)
    requires var out := Standing(c, img.newInfos, e, reuse, n); Mid(c, s, out, |out|)
    ensures n as int in s.mapInfo
    ensures var s' := PlaceOne(c, s, e, reuse, n);
            var out := Standing(c, img.newInfos, e, reuse, n + 1);
            && s'.new_ == Seats(c, img.newInfos, e, reuse, n + 1) && Mid(c, s', out, |out|) && Holds(img, s', |All(img)|)
            && s' == s.(mapInfo := s'.mapInfo, new_ := s'.new_)
  {
    hide Mid, RandOk, Seats, NewSlotIn, NewSlot, Standing, Holds, PlaceOne, TakeSlot;
    var rs := img.newInfos;
    var out := Standing(c, rs, e, reuse, n);
    StandingNext(c, rs, e, reuse, n);
    EntryOfRecord(c, img, s, n, out);
    PlaceOneIs(c, rs, e, reuse, s, n);
    SeatsNext(c, rs, e, reuse, n);
    if Seated(c, rs, e, reuse, n) {
      var u := if reuse && NotedSlot(c, rs, e, n) !in s.new_ then NotedSlot(c, rs, e, n) else SourceSlot(c, rs, n);
      SlotFits(c, rs, e, reuse, s, n, out);
      TakeKeeps(c, s, u, n, out, |out|);
      TakenHolds(img, s, u, n, |All(img)|);
      TakenFrame(s, u, n);
    }
  }

  lemma SlotFits(c: Config, rs: seq<Record>, e: map<int, int>, reuse: bool, s: State, n: nat, limbo: set<int>)
    requires n < |rs| && (reuse ==> BucketsFit(c, e)) && Mid(c, s, limbo, |limbo|)
    ensures var u := if reuse && NotedSlot(c, rs, e, n) !in s.new_ then NotedSlot(c, rs, e, n) else SourceSlot(c, rs, n);
            0 <= u.0 < c.nNewBuckets && u == NewSlotIn(c, rs[n].addr.service, u.0)
  {
    if reuse {
      NotedFits(c, rs, e, n);
    }
    NewSlotFits(c, rs[n].addr.service, rs[n].source);
  }

  lemma PlaceOneIs(c: Config, rs: seq<Record>, e: map<int, int>, reuse: bool, s: State, n: nat)
    requires n < |rs| && RandOk(s) && n as int in s.mapInfo && s.mapInfo[n].nRefCount == 0
    requires s.mapInfo[n].addr == rs[n].addr && s.mapInfo[n].source == rs[n].source
    ensures PlaceOne(c, s, e, reuse, n)
            == if reuse && NotedSlot(c, rs, e, n) !in s.new_ then TakeSlot(s, NotedSlot(c, rs, e, n), n)
               else if SourceSlot(c, rs, n) !in s.new_ then TakeSlot(s, SourceSlot(c, rs, n), n) else s
  {
  }

  lemma StandingNext(c: Config, rs: seq<Record>, e: map<int, int>, reuse: bool, n: nat)
    requires n < |rs|
    ensures n in Standing(c, rs, e, reuse, n)
    ensures Standing(c, rs, e, reuse, n + 1)
            == if Seated(c, rs, e, reuse, n) then Standing(c, rs, e, reuse, n) - {n} else Standing(c, rs, e, reuse, n)
  {
    hide Seated;
  }

  lemma SeatsNext(c: Config, rs: seq<Record>, e: map<int, int>, reuse: bool, n: nat)
    requires n < |rs|
    ensures var t := Seats(c, rs, e, reuse, n);
            Seats(c, rs, e, reuse, n + 1)
            == if reuse && NotedSlot(c, rs, e, n) !in t then t[NotedSlot(c, rs, e, n) := n]
               else if SourceSlot(c, rs, n) !in t then t[SourceSlot(c, rs, n) := n] else t
  {
  }

  lemma EntryOfRecord(c: Config, img: Image, s: State, n: nat, limbo: set<int>)
    requires Holds(img, s, |All(img)|) && n < |img.newInfos| && Mid(c, s, limbo, |limbo|) && n in limbo
    ensures n as int in s.mapInfo && s.mapInfo[n].addr == img.newInfos[n].addr && s.mapInfo[n].source == img.newInfos[n].source
    ensures s.mapInfo[n].nRefCount == 0 && !s.mapInfo[n].fInTried
  {
    assert All(img)[n] == img.newInfos[n] == Saved(s.mapInfo[n]);
  }

  lemma {:induction false} SeatAll(c: Config, img: Image, e: map<int, int>, reuse: bool, s: State, n: nat)
    requires n <= |img.newInfos| && (reuse ==> BucketsFit(c, e)) && Holds(img, s, |All(img)|) && RandOk(s)
    requires s.new_ == map[] && Mid(c, s, Firsts(|img.newInfos|), |img.newInfos|)
    ensures forall i :: 0 <= i < n ==> i in s.mapInfo
    ensures var s' := PlaceAll(c, s, e, reuse, n);
            var out := Standing(c, img.newInfos, e, reuse, n);
            && s'.new_ == Seats(c, img.newInfos, e, reuse, n) && Mid(c, s', out, |out|) && Holds(img, s', |All(img)|)
            && s' == s.(mapInfo := s'.mapInfo, new_ := s'.new_)
  {
    hide Mid, RandOk, PlaceOne, Seated, Standing, Seats, Holds, Firsts;
    HeldIds(img, s, n);
    if n == 0 {
      NobodySeated(c, img.newInfos, e, reuse);
    } else {
      SeatAll(c, img, e, reuse, s, n - 1);
      SeatStep(c, img, e, reuse, PlaceAll(c, s, e, reuse, n - 1), n - 1);
    }
  }

  lemma NobodySeated(c: Config, rs: seq<Record>, e: map<int, int>, reuse: bool)
    ensures Seats(c, rs, e, reuse, 0) == map[]
    ensures var out := Standing(c, rs, e, reuse, 0); out == Firsts(|rs|) && |out| == |rs|
  {
    FirstsSize(|rs|);
    assert Standing(c, rs, e, reuse, 0) == Firsts(|rs|);
  }

  lemma HeldIds(img: Image, s: State, n: nat)
    requires Holds(img, s, |All(img)|) && n <= |img.newInfos|
    ensures forall i :: 0 <= i < n ==> i in s.mapInfo
  {
  }

  lemma {:induction false} FirstsSize(n: nat)
    ensures |Firsts(n)| == n
  {
    if n > 0 {
      FirstsSize(n - 1);
    }
  }

  // ------------------------------------------------------------------
  // Entries without a slot are deleted
  // ------------------------------------------------------------------

  /** The entries of `s` but for those in `gone`. */
  ghost predicate Without(s: State, s': State, gone: set<int>) {
    && SameButPos(s.mapInfo - gone, s'.mapInfo)
    && s'.new_ == s.new_ && s'.tried == s.tried && s'.nIdCount == s.nIdCount
  }

  lemma {:induction false} PruneKeeps(c: Config, s: State, limbo: set<int>, hi: nat)
    requires Mid(c, s, limbo, |limbo|) && RandOk(s)
    ensures var s', rest := Prune(s, 0, hi), limbo - Firsts(hi);
            Mid(c, s', rest, |rest|) && Without(s, s', limbo * Firsts(hi))
  {
    hide Mid, RandOk, Without, Delete, SameButPos, Firsts;
    if hi == 0 {
      assert limbo - Firsts(0) == limbo && limbo * Firsts(0) == {};
      WithoutNone(s);
    } else {
      PruneKeeps(c, s, limbo, hi - 1);
      PruneStep(c, s, Prune(s, 0, hi - 1), limbo, hi - 1);
    }
  }

  lemma PruneStep(c: Config, s: State, s1: State, limbo: set<int>, n: nat)
    requires RandOk(s) && s1 == Prune(s, 0, n) && Without(s, s1, limbo * Firsts(n))
    requires var rest := limbo - Firsts(n); Mid(c, s1, rest, |rest|)
    ensures var s', rest := Prune(s, 0, n + 1), limbo - Firsts(n + 1);
            Mid(c, s', rest, |rest|) && Without(s, s', limbo * Firsts(n + 1))
  {
    hide Mid, RandOk, Without, Delete, SameButPos, Firsts, Prune;
    var rest := limbo - Firsts(n);
    InLimbo(c, s1, rest, n);
    PrunedOne(limbo, n);
    PruneNext(s, n);
    if n in rest {
      DeleteKeeps(c, s1, n, rest, |rest|);
      WithoutMore(s, s1, Delete(s1, n), limbo * Firsts(n), n);
    }
  }

  lemma PruneNext(s: State, n: nat)
    requires RandOk(s)
    ensures var s1 := Prune(s, 0, n);
            Prune(s, 0, n + 1)
            == if n as int in s1.mapInfo && !s1.mapInfo[n].fInTried && s1.mapInfo[n].nRefCount == 0 then Delete(s1, n) else s1
  {
    hide RandOk, Delete;
  }

  lemma PrunedOne(limbo: set<int>, n: nat)
    ensures if n in limbo - Firsts(n) then
              && limbo - Firsts(n + 1) == limbo - Firsts(n) - {n}
              && |limbo - Firsts(n + 1)| == |limbo - Firsts(n)| - 1
              && limbo * Firsts(n + 1) == limbo * Firsts(n) + {n}
            else limbo - Firsts(n + 1) == limbo - Firsts(n) && limbo * Firsts(n + 1) == limbo * Firsts(n)
  {
  }

  lemma InLimbo(c: Config, s: State, limbo: set<int>, id: int)
    requires Mid(c, s, limbo, |limbo|)
    ensures id in limbo <==> id in s.mapInfo && !s.mapInfo[id].fInTried && s.mapInfo[id].nRefCount == 0
  {
  }

  lemma WithoutNone(s: State)
    ensures Without(s, s, {})
  {
    assert s.mapInfo - {} == s.mapInfo;
  }

  lemma WithoutMore(s: State, s1: State, s2: State, gone: set<int>, id: int)
    requires Without(s, s1, gone) && SameButPos(s1.mapInfo - {id}, s2.mapInfo) && RandOk(s1) && id in s1.mapInfo && s2 == Delete(s1, id)
    ensures Without(s, s2, gone + {id})
  {
    hide RandOk, Delete;
    DeleteFrame(s1, id);
    assert s.mapInfo - (gone + {id}) == s.mapInfo - gone - {id};
  }

  // ------------------------------------------------------------------
  // Reading as a whole
  // ------------------------------------------------------------------

  /** Two readings of the new entries, one with fewer tried ones to follow. */
  lemma HoldsThin(c: Config, img: Image, s: State)
    requires Holds(img, s, |img.newInfos|)
    ensures Holds(Thinned(c, img), s, |img.newInfos|)
  {
    assert forall i :: 0 <= i < |img.newInfos| ==> All(Thinned(c, img))[i] == All(img)[i];
  }

  /** After both kinds of records are read, the new entries are in neither table. */
  lemma ReadBoth(c: Config, img: Image, s1: State) returns (s2: State)
    requires Wellformed(c, img) && s1.nIdCount == |img.newInfos| && s1.new_ == map[] && s1.tried == map[]
    requires Holds(img, s1, |img.newInfos|) && RandOk(s1) && (forall i :: i in s1.mapInfo ==> i < s1.nIdCount)
    requires Mid(c, Counted(s1, s1.nIdCount, 0), Firsts(|img.newInfos|), img.nNew)
    ensures var thin, r := Thinned(c, img), LoadTried(c, img, s1, |img.triedInfos|);
            && s2 == r.0.(nTried := img.nTried - r.1) && s2.new_ == map[] && RandOk(s2)
            && Holds(thin, s2, |All(thin)|) && s2.nIdCount == |All(thin)|
            && Mid(c, s2, Firsts(|img.newInfos|), |img.newInfos|)
  {
    hide Mid, Holds, RandOk, LoadTried, FirstIds, DistinctIps;
    var thin := Thinned(c, img);
    ThinnedReadable(c, img);
    HoldsThin(c, img, s1);
    var r := LoadTriedThin(c, img, thin, s1, |img.triedInfos|);
    LoadTriedKeeps(c, thin, s1, |thin.triedInfos|);
    var (s', nLost) := LoadTried(c, img, s1, |img.triedInfos|);
    s2 := s'.(nTried := img.nTried - nLost);
    assert s2 == Counted(s', s'.nIdCount, |thin.triedInfos|);
    HoldsFrame(thin, s', s2, |All(thin)|);
    RandSame(s', s2);
  }

  /** What the survivors are: the records but for new ones that found both their slots taken, and tried ones that
      were not the first in their slot. */
  ghost predicate Survived(c: Config, img: Image, e: map<int, int>, reuse: bool, s: State) {
    && (forall i :: SurvivorAt(c, img, e, reuse, s, i))
    && s.new_ == Seats(c, img.newInfos, e, reuse, |img.newInfos|)
    && Contents(s, false) == (set i | 0 <= i < |img.newInfos| && Seated(c, img.newInfos, e, reuse, i) :: img.newInfos[i])
    && Contents(s, true) == (set j | 0 <= j < |img.triedInfos| && FirstInSlot(c, img.triedInfos, j) :: img.triedInfos[j])
  }

  lemma PlacedAndPruned(c: Config, img: Image, e: map<int, int>, reuse: bool, s2: State)
    requires Wellformed(c, img) && (reuse ==> BucketsFit(c, e)) && s2.new_ == map[] && RandOk(s2)
    requires var thin := Thinned(c, img); Holds(thin, s2, |All(thin)|) && s2.nIdCount == |All(thin)|
    requires Mid(c, s2, Firsts(|img.newInfos|), |img.newInfos|)
    ensures forall i :: 0 <= i < |img.newInfos| ==> i in s2.mapInfo
    ensures var s3 := PlaceAll(c, s2, e, reuse, |img.newInfos|);
            var s := Prune(s3, 0, s3.nIdCount);
            && s3.nIdCount == s2.nIdCount && Indexed(c, s) && Survived(c, img, e, reuse, s)
            && forall i :: i in s.mapInfo ==> s.mapInfo[i].nLastTry == 0
  {
    hide Mid, Holds, RandOk, PlaceAll, Prune, Seats, Seated, Standing, FirstIds, DistinctIps, Survived, Without;
    var thin, rs := Thinned(c, img), img.newInfos;
    SeatAll(c, thin, e, reuse, s2, |rs|);
    var s3, out := PlaceAll(c, s2, e, reuse, |rs|), Standing(c, rs, e, reuse, |rs|);
    PruneKeeps(c, s3, out, s3.nIdCount);
    StandingBelow(c, rs, e, reuse, s3.nIdCount);
    var s := Prune(s3, 0, s3.nIdCount);
    SurvivorsAre(c, img, e, reuse, s3, s);
  }

  lemma StandingBelow(c: Config, rs: seq<Record>, e: map<int, int>, reuse: bool, n: nat)
    requires |rs| <= n
    ensures var out := Standing(c, rs, e, reuse, |rs|); out - Firsts(n) == {} && out * Firsts(n) == out
  {
    hide Seated;
  }

  lemma SurvivorsAre(c: Config, img: Image, e: map<int, int>, reuse: bool, s3: State, s: State)
    requires var thin := Thinned(c, img); Holds(thin, s3, |All(thin)|)
    requires Without(s3, s, Standing(c, img.newInfos, e, reuse, |img.newInfos|))
    requires s3.new_ == Seats(c, img.newInfos, e, reuse, |img.newInfos|)
    ensures Survived(c, img, e, reuse, s)
    ensures forall i :: i in s.mapInfo ==> s.mapInfo[i].nLastTry == 0
  {
    hide Seats, Seated, FirstInSlot, Holds, Standing, FirstIds, Thinned, SameButPos, Contents;
    SurvivorEntries(c, img, e, reuse, s3, s);
    forall i ensures i in s.mapInfo ==> s.mapInfo[i].nLastTry == 0 {
      assert SurvivorAt(c, img, e, reuse, s, i);
    }
    NewSurvivors(c, img, e, reuse, s);
    TriedSurvivors(c, img, e, reuse, s);
  }

  lemma SurvivorEntries(c: Config, img: Image, e: map<int, int>, reuse: bool, s3: State, s: State)
    requires var thin := Thinned(c, img); Holds(thin, s3, |All(thin)|)
    requires Without(s3, s, Standing(c, img.newInfos, e, reuse, |img.newInfos|))
    ensures forall i :: SurvivorAt(c, img, e, reuse, s, i)
  {
    hide Holds, Without, FirstIds, Standing, Seated, Thinned;
    forall i ensures SurvivorAt(c, img, e, reuse, s, i) {
      SurvivorEntry(c, img, e, reuse, s3, s, i);
    }
  }

  ghost predicate SurvivorAt(c: Config, img: Image, e: map<int, int>, reuse: bool, s: State, i: int) {
    var us, ids := img.newInfos, FirstIds(c, img.triedInfos, |img.triedInfos|);
    && (i in s.mapInfo <==> 0 <= i < |us| + |ids| && (i < |us| ==> Seated(c, us, e, reuse, i)))
    && (i in s.mapInfo ==>
          && s.mapInfo[i].nLastTry == 0 && (s.mapInfo[i].fInTried <==> i >= |us|)
          && Saved(s.mapInfo[i]) == if i < |us| then us[i] else img.triedInfos[ids[i - |us|]])
  }

  lemma SurvivorEntry(c: Config, img: Image, e: map<int, int>, reuse: bool, s3: State, s: State, i: int)
    requires var thin := Thinned(c, img); Holds(thin, s3, |All(thin)|)
    requires Without(s3, s, Standing(c, img.newInfos, e, reuse, |img.newInfos|))
    ensures SurvivorAt(c, img, e, reuse, s, i)
  {
    hide Seats, Seated, FirstInSlot, FirstIds;
    assert i in s.mapInfo <==> i in s3.mapInfo && i !in Standing(c, img.newInfos, e, reuse, |img.newInfos|);
    if i in s.mapInfo {
      assert SameCore(s3.mapInfo[i], s.mapInfo[i]) && Saved(s3.mapInfo[i]) == All(Thinned(c, img))[i];
    }
  }

  lemma NewSurvivors(c: Config, img: Image, e: map<int, int>, reuse: bool, s: State)
    requires forall i :: SurvivorAt(c, img, e, reuse, s, i)
    ensures var us := img.newInfos; Contents(s, false) == set i | 0 <= i < |us| && Seated(c, us, e, reuse, i) :: us[i]
  {
    hide Seated, FirstIds;
    var us := img.newInfos;
    var news := set i | 0 <= i < |us| && Seated(c, us, e, reuse, i) :: us[i];
    forall r ensures r in Contents(s, false) <==> r in news {
      if r in news {
        var i :| 0 <= i < |us| && Seated(c, us, e, reuse, i) && us[i] == r;
        assert SurvivorAt(c, img, e, reuse, s, i);
      }
      if r in Contents(s, false) {
        var i :| i in s.mapInfo && s.mapInfo[i].fInTried == false && Saved(s.mapInfo[i]) == r;
        assert SurvivorAt(c, img, e, reuse, s, i);
      }
    }
  }

  lemma TriedSurvivors(c: Config, img: Image, e: map<int, int>, reuse: bool, s: State)
    requires forall i :: SurvivorAt(c, img, e, reuse, s, i)
    ensures var rs := img.triedInfos; Contents(s, true) == set j | 0 <= j < |rs| && FirstInSlot(c, rs, j) :: rs[j]
  {
    hide Seated, FirstInSlot, FirstIds;
    var us, rs := img.newInfos, img.triedInfos;
    var ids := FirstIds(c, rs, |rs|);
    var olds := set j | 0 <= j < |rs| && FirstInSlot(c, rs, j) :: rs[j];
    forall r ensures r in Contents(s, true) <==> r in olds {
      if r in olds {
        var j :| 0 <= j < |rs| && FirstInSlot(c, rs, j) && rs[j] == r;
        FirstIdsAll(c, rs, |rs|, j);
        var k :| 0 <= k < |ids| && ids[k] == j;
        assert SurvivorAt(c, img, e, reuse, s, |us| + k);
      }
      if r in Contents(s, true) {
        var i :| i in s.mapInfo && s.mapInfo[i].fInTried == true && Saved(s.mapInfo[i]) == r;
        assert SurvivorAt(c, img, e, reuse, s, i);
      }
    }
  }

  /** Every image of the promised shape whose entries have distinct addresses is read into a manager whose indexes
      agree, and what is lost is exactly what found its slots taken.  The manager is consistent exactly when the
      times of the survivors are fine. */
  lemma LoadDistinct(env: Env, asmap: Asmap, c: Config, img: Image)
    requires c == env.hashes(img.nKey, asmap) && Wellformed(c, img) && img.nKeySize == KEY_SIZE && UBuckets(img) <= |img.buckets|
    requires img.nNew <= c.nNewBuckets * c.nBucketSize && img.nTried <= c.nTriedBuckets * c.nBucketSize
    ensures Load(env, asmap, img).Some?
    ensures var s, e := Load(env, asmap, img).value, EntryToBucket(img, AtLeastZero(UBuckets(img)));
            && Indexed(c, s) && Survived(c, img, e, Reusable(env, asmap, c, img), s)
            && (Consistent(c, s) <==> (forall r :: r in Contents(s, false) ==> r.nLastSuccess >= 0)
                                      && (forall r :: r in Contents(s, true) ==> r.nLastSuccess > 0))
  {
    hide Mid, Holds, RandOk, LoadNew, LoadTried, PlaceAll, Prune, EntryToBucket, DistinctIps, Survived;
    var e, reuse := EntryToBucket(img, AtLeastZero(UBuckets(img))), Reusable(env, asmap, c, img);
    BucketsBelow(img, AtLeastZero(UBuckets(img)));
    var s1 := LoadedNew(c, img);
    var s2 := ReadBoth(c, img, s1);
    PlacedAndPruned(c, img, e, reuse, s2);
    LoadedTimes(Load(env, asmap, img).value);
  }

  lemma LoadedTimes(s: State)
    requires forall i :: i in s.mapInfo ==> s.mapInfo[i].nLastTry == 0
    ensures TimeOk(s) <==> (forall r :: r in Contents(s, false) ==> r.nLastSuccess >= 0)
                           && (forall r :: r in Contents(s, true) ==> r.nLastSuccess > 0)
  {
    forall i | i in s.mapInfo ensures Saved(s.mapInfo[i]) in Contents(s, s.mapInfo[i].fInTried) { }
  }
}
