/**
 The consistency check of the address manager's debug builds.  It finds nothing
 exactly when the conditions hold that it looks at.  Those and three more that
 it does not look at are the consistency of the manager; for each of the three
 there is a manager that passes the check and is not consistent.
 */
module AddrManCheck {
  import opened Basics
  import opened AddrMan
  import opened AddrManEffects
  import opened AddrManObject

  /** A lookup of an address that is not there gives zero. */
  function FoundId(s: State, ip: NetAddr): int { if ip in s.mapAddr then s.mapAddr[ip] else 0 }

  /** What is tested of each entry by itself. */
  predicate EntryOk(s: State, n: int)
    requires n in s.mapInfo
  {
    var info := s.mapInfo[n];
    && (if info.fInTried then info.nLastSuccess != 0 && info.nRefCount == 0
        else 1 <= info.nRefCount <= NEW_BUCKETS_PER_ADDRESS)
    && FoundId(s, info.Ip()) == n
    && 0 <= info.nRandomPos < |s.vRandom| && s.vRandom[info.nRandomPos] == n
    && info.nLastTry >= 0 && info.nLastSuccess >= 0
  }

  ghost predicate RefsExact(s: State) {
    forall n :: n in s.mapInfo && !s.mapInfo[n].fInTried ==> s.mapInfo[n].nRefCount == |SlotsOf(s.new_, n)|
  }

  /** Everything that the check looks at. */
  ghost predicate Checked(c: Config, s: State) {
    && |s.vRandom| == s.nTried + s.nNew
    && (forall n :: n in s.mapInfo ==> EntryOk(s, n))
    && CountOk(s, {}, 0) && TriedOk(c, s) && NewOk(c, s) && RefsExact(s)
  }

  /** What it does not look at: ids stay below the next one, no address leads to a missing entry, and entry 0,
      which a failed lookup gives as well, is really found. */
  ghost predicate Unchecked(s: State) {
    && IdsOk(s)
    && (forall a :: a in s.mapAddr ==> s.mapAddr[a] in s.mapInfo && s.mapInfo[s.mapAddr[a]].Ip() == a)
    && (0 in s.mapInfo ==> s.mapInfo[0].Ip() in s.mapAddr)
  }

  // ------------------------------------------------------------------
  // Consistency is what is checked and what is not
  // ------------------------------------------------------------------

  lemma {:induction false} PositionsCount(m: map<int, AddrInfo>, v: seq<int>)
    requires forall n :: n in m ==> 0 <= m[n].nRandomPos < |v| && v[m[n].nRandomPos] == n
    ensures |m.Keys| <= |v|
    ensures |m.Keys| == |v| ==> forall i :: 0 <= i < |v| ==> v[i] in m && m[v[i]].nRandomPos == i
    decreases |v|
  {
    if |v| == 0 {
      forall n ensures n !in m.Keys { }
      assert m.Keys == {};
    } else {
      var last := |v| - 1;
      var id := v[last];
      var m' := if id in m && m[id].nRandomPos == last then m - {id} else m;
      PositionsCount(m', v[..last]);
      assert m'.Keys == if id in m && m[id].nRandomPos == last then m.Keys - {id} else m.Keys;
      forall i | |m.Keys| == |v| && 0 <= i < |v| ensures v[i] in m && m[v[i]].nRandomPos == i {
        assert i < last ==> v[..last][i] == v[i];
      }
    }
  }

  lemma EntriesSplit(m: map<int, AddrInfo>)
    ensures |TriedIds(m)| + |NewIds(m, {})| == |m.Keys|
  {
    assert m.Keys == TriedIds(m) + NewIds(m, {});
  }

  lemma RandCount(s: State)
    requires RandOk(s)
    ensures |s.vRandom| == |s.mapInfo.Keys|
  {
    ImageCount(s.vRandom, s.mapInfo);
  }

  lemma {:induction false} ImageCount(v: seq<int>, m: map<int, AddrInfo>)
    requires forall n :: n in m ==> 0 <= m[n].nRandomPos < |v| && v[m[n].nRandomPos] == n
    requires forall i :: 0 <= i < |v| ==> v[i] in m && m[v[i]].nRandomPos == i
    ensures |v| == |m.Keys|
    decreases |v|
  {
    if |v| == 0 {
      forall n ensures n !in m.Keys { }
      assert m.Keys == {};
    } else {
      var last := |v| - 1;
      var m' := m - {v[last]};
      assert forall i :: 0 <= i < last ==> v[..last][i] == v[i] && v[i] != v[last];
      ImageCount(v[..last], m');
      assert m'.Keys == m.Keys - {v[last]};
    }
  }

  /** The consistency that every operation keeps is what the check tests and the conditions it leaves out. */
  lemma ConsistentIsChecked(c: Config, s: State)
    requires Sized(c)
    ensures Consistent(c, s) <==> Checked(c, s) && Unchecked(s)
  {
    EntriesSplit(s.mapInfo);
    if Consistent(c, s) {
      RandCount(s);
      CheckedFrom(c, s);
    }
    if Checked(c, s) && Unchecked(s) {
      PositionsCount(s.mapInfo, s.vRandom);
      ConsistentFrom(c, s);
    }
  }

  lemma CheckedFrom(c: Config, s: State)
    requires Consistent(c, s) && |s.vRandom| == |TriedIds(s.mapInfo)| + |NewIds(s.mapInfo, {})|
    ensures Checked(c, s) && Unchecked(s)
  {
    hide SlotsOf, TriedOk, NewOk, TriedIds, NewIds;
    forall n | n in s.mapInfo ensures EntryOk(s, n) {
      assert TimesFine(s.mapInfo[n]);
    }
  }

  lemma ConsistentFrom(c: Config, s: State)
    requires Sized(c) && Checked(c, s) && Unchecked(s)
    requires forall i :: 0 <= i < |s.vRandom| ==> s.vRandom[i] in s.mapInfo && s.mapInfo[s.vRandom[i]].nRandomPos == i
    ensures Consistent(c, s)
  {
    assert forall n :: n in s.mapInfo ==> EntryOk(s, n);
    assert TimeOk(s) && AddrOk(s) && RandOk(s);
    forall n | n in s.mapInfo && s.mapInfo[n].fInTried ensures SlotsOf(s.new_, n) == {} { }
  }

  lemma SingleChecked(c: Config, id: int, nIdCount: int, svc: Service, mapAddr: map<NetAddr, int>)
    requires Sized(c) && (if svc.ip in mapAddr then mapAddr[svc.ip] else 0) == id
    ensures Checked(c, Single(c, id, nIdCount, svc, mapAddr))
  {
    var s, u := Single(c, id, nIdCount, svc, mapAddr), NewSlot(c, svc, svc.ip);
    assert NewIds(s.mapInfo, {}) == {id} && TriedIds(s.mapInfo) == {};
    assert SlotsOf(s.new_, id) == {u};
    NewSlotFits(c, svc, svc.ip);
  }

  /** The check does not see an id that is still to be given out. */
  lemma LateIdUnseen(c: Config, id: nat, svc: Service)
    requires Sized(c)
    ensures var s := Single(c, id, id, svc, map[svc.ip := id]); Checked(c, s) && !IdsOk(s) && !Consistent(c, s)
  {
    SingleChecked(c, id, id, svc, map[svc.ip := id]);
    assert id in Single(c, id, id, svc, map[svc.ip := id]).mapInfo;
  }

  /** Nor an address that leads to a missing entry. */
  lemma LostAddressUnseen(c: Config, id: nat, svc: Service, other: NetAddr)
    requires Sized(c) && other != svc.ip
    ensures var s := Single(c, id, id + 1, svc, map[svc.ip := id, other := id + 1]);
            Checked(c, s) && other in s.mapAddr && s.mapAddr[other] !in s.mapInfo && !Consistent(c, s)
  {
    SingleChecked(c, id, id + 1, svc, map[svc.ip := id, other := id + 1]);
  }

  /** Nor that entry 0 cannot be found. */
  lemma LostEntryUnseen(c: Config, svc: Service)
    requires Sized(c)
    ensures var s := Single(c, 0, 1, svc, map[]); Checked(c, s) && 0 in s.mapInfo && s.mapInfo[0].Ip() !in s.mapAddr && !Consistent(c, s)
  {
    SingleChecked(c, 0, 1, svc, map[]);
    assert 0 in Single(c, 0, 1, svc, map[]).mapInfo;
  }

  // ------------------------------------------------------------------
  // The check itself
  // ------------------------------------------------------------------

  /** Slot `u` comes before place `i` of bucket `n`. */
  predicate Before(u: Slot, n: int, i: int) { u.0 < n || (u.0 == n && u.1 < i) }

  ghost function SeenIds(t: map<Slot, int>, n: int, i: int): set<int> { set u | u in t && Before(u, n, i) :: t[u] }

  ghost function SlotsBefore(t: map<Slot, int>, id: int, n: int, i: int): set<Slot> {
    set u | u in t && t[u] == id && Before(u, n, i)
  }

  ghost predicate InGrid(t: map<Slot, int>, size: nat) { forall u :: u in t ==> 0 <= u.0 && 0 <= u.1 < size }

  ghost predicate TriedAt(c: Config, s: State, u: Slot)
    requires u in s.tried
  {
    var id := s.tried[u];
    id in s.mapInfo && s.mapInfo[id].fInTried && u == TriedSlot(c, s.mapInfo[id].addr.service)
  }

  /** The tried slots before (n, i) are right, and `left` are the tried entries not seen in them. */
  ghost predicate TriedSoFar(c: Config, s: State, n: int, i: int, left: set<int>) {
    && (forall u :: u in s.tried && Before(u, n, i) ==> TriedAt(c, s, u))
    && left == TriedIds(s.mapInfo) - SeenIds(s.tried, n, i)
  }

  lemma TriedNext(c: Config, s: State, n: int, i: int, left: set<int>)
    requires TriedSoFar(c, s, n, i, left)
    ensures var u := (n, i);
            && (u !in s.tried ==> TriedSoFar(c, s, n, i + 1, left))
            && (u in s.tried && s.tried[u] !in left ==> !TriedOk(c, s))
            && (u in s.tried && s.tried[u] in left ==>
                  && s.tried[u] in s.mapInfo && s.mapInfo[s.tried[u]].fInTried
                  && if u == TriedSlot(c, s.mapInfo[s.tried[u]].addr.service) then TriedSoFar(c, s, n, i + 1, left - {s.tried[u]})
                     else !TriedOk(c, s))
  {
    var u: Slot := (n, i);
    var next := if u in s.tried then SeenIds(s.tried, n, i) + {s.tried[u]} else SeenIds(s.tried, n, i);
    forall id ensures id in SeenIds(s.tried, n, i + 1) <==> id in next {
      if id in next {
        if u in s.tried && id == s.tried[u] {
          assert Before(u, n, i + 1);
        } else {
          var v :| v in s.tried && Before(v, n, i) && s.tried[v] == id;
          assert Before(v, n, i + 1);
        }
      }
    }
    if u in s.tried && TriedAt(c, s, u) {
      forall v | v in s.tried && Before(v, n, i) ensures s.tried[v] != s.tried[u] {
        assert TriedAt(c, s, v);
      }
    }
  }

  lemma RowEnd(t: map<Slot, int>, size: nat, n: int)
    requires InGrid(t, size)
    ensures forall u :: u in t ==> (Before(u, n, size) <==> Before(u, n + 1, 0))
    ensures SeenIds(t, n, size) == SeenIds(t, n + 1, 0)
    ensures forall id :: SlotsBefore(t, id, n, size) == SlotsBefore(t, id, n + 1, 0)
  {
    forall u | u in t ensures Before(u, n, size) <==> Before(u, n + 1, 0) { }
    forall id ensures SlotsBefore(t, id, n, size) == SlotsBefore(t, id, n + 1, 0) { }
  }

  lemma TriedEnd(c: Config, s: State, n: int, left: set<int>)
    requires TriedSoFar(c, s, n, 0, left) && forall u :: u in s.tried ==> u.0 < n
    ensures left == {} <==> TriedOk(c, s)
  {
    forall u | u in s.tried ensures TriedAt(c, s, u) {
      assert Before(u, n, 0);
    }
    if left == {} {
      forall id | id in s.mapInfo && s.mapInfo[id].fInTried
        ensures var u := TriedSlot(c, s.mapInfo[id].addr.service); u in s.tried && s.tried[u] == id
      {
        assert id in TriedIds(s.mapInfo) && id !in left;
        var v :| v in s.tried && Before(v, n, 0) && s.tried[v] == id;
      }
    }
    if TriedOk(c, s) {
      forall id ensures id !in left {
        if id in TriedIds(s.mapInfo) {
          assert Before(TriedSlot(c, s.mapInfo[id].addr.service), n, 0);
        }
      }
    }
  }

  lemma GridTable(a: array2<int>)
    ensures InGrid(Table(a), a.Length1) && forall u :: u in Table(a) ==> u.0 < a.Length0
  {
  }

  method CheckTried(m: AddrManager, setTried: set<int>) returns (err: int, left: set<int>)
    requires m.Shape() && setTried == TriedIds(m.mapInfo)
    ensures err != 0 ==> !TriedOk(m.c, m.Value())
    ensures err == 0 ==> (left == {} <==> TriedOk(m.c, m.Value()))
  {
    hide TriedOk, TriedSoFar, InGrid;
    ghost var s := m.Value();
    left := setTried;
    TriedStart(m.c, s);
    GridTable(m.vvTried);
    for n := 0 to m.c.nTriedBuckets
      invariant TriedSoFar(m.c, s, n, 0, left)
    {
      for i := 0 to m.c.nBucketSize
        invariant TriedSoFar(m.c, s, n, i, left)
      {
        TableAt(m.vvTried, n, i);
        TriedNext(m.c, s, n, i, left);
        var id := m.vvTried[n, i];
        if id != -1 {
          if id !in left {
            return -11, left;
          }
          if m.c.triedBucket(m.mapInfo[id].addr.service) != n {
            return -17, left;
          }
          if m.c.position(m.mapInfo[id].addr.service, false, n) != i {
            return -18, left;
          }
          left := left - {id};
        }
      }
      TriedRow(m.c, s, m.c.nBucketSize, n, left);
    }
    TriedEnd(m.c, s, m.c.nTriedBuckets, left);
    err := 0;
  }

  lemma TriedStart(c: Config, s: State)
    requires InGrid(s.tried, c.nBucketSize)
    ensures TriedSoFar(c, s, 0, 0, TriedIds(s.mapInfo))
  {
  }

  lemma TriedRow(c: Config, s: State, size: nat, n: int, left: set<int>)
    requires TriedSoFar(c, s, n, size, left) && InGrid(s.tried, size)
    ensures TriedSoFar(c, s, n + 1, 0, left)
  {
    RowEnd(s.tried, size, n);
  }

  ghost predicate NewAt(c: Config, s: State, u: Slot)
    requires u in s.new_
  {
    var id := s.new_[u];
    id in s.mapInfo && !s.mapInfo[id].fInTried && u == NewSlotIn(c, s.mapInfo[id].addr.service, u.0)
  }

  /** The references of entry `id` that are not accounted for by the slots before (n, i). */
  ghost function Open(s: State, id: int, n: int, i: int): int
    requires id in s.mapInfo
  {
    s.mapInfo[id].nRefCount - |SlotsBefore(s.new_, id, n, i)|
  }

  /** The new slots before (n, i) are right, and `left` holds the references still open. */
  ghost predicate NewSoFar(c: Config, s: State, n: int, i: int, left: map<int, int>) {
    && (forall u :: u in s.new_ && Before(u, n, i) ==> NewAt(c, s, u))
    && (forall id :: id in left ==> id in s.mapInfo && !s.mapInfo[id].fInTried && left[id] == Open(s, id, n, i) > 0)
    && (forall id :: id in s.mapInfo && !s.mapInfo[id].fInTried && id !in left ==> Open(s, id, n, i) == 0)
  }

  function Discharged(left: map<int, int>, id: int): map<int, int>
    requires id in left
  {
    if left[id] - 1 == 0 then left - {id} else left[id := left[id] - 1]
  }

  lemma SlotCounted(t: map<Slot, int>, id: int, n: int, i: int)
    ensures |SlotsBefore(t, id, n, i + 1)| == |SlotsBefore(t, id, n, i)| + if (n, i) in t && t[(n, i)] == id then 1 else 0
    ensures |SlotsBefore(t, id, n, i + 1)| <= |SlotsOf(t, id)|
  {
    var u: Slot, before := (n, i), SlotsBefore(t, id, n, i);
    assert SlotsBefore(t, id, n, i + 1) == if u in t && t[u] == id then before + {u} else before;
    SubsetSize(SlotsBefore(t, id, n, i + 1), SlotsOf(t, id));
  }

  lemma NewNext(c: Config, s: State, n: int, i: int, left: map<int, int>)
    requires NewSoFar(c, s, n, i, left)
    ensures var u := (n, i);
            && (u !in s.new_ ==> NewSoFar(c, s, n, i + 1, left))
            && (u in s.new_ && s.new_[u] !in left ==> !(NewOk(c, s) && RefsExact(s)))
            && (u in s.new_ && s.new_[u] in left ==>
                  && s.new_[u] in s.mapInfo && !s.mapInfo[s.new_[u]].fInTried
                  && if u == NewSlotIn(c, s.mapInfo[s.new_[u]].addr.service, n) then NewSoFar(c, s, n, i + 1, Discharged(left, s.new_[u]))
                     else !NewOk(c, s))
  {
    hide SlotsOf, SlotsBefore;
    var u: Slot := (n, i);
    forall id ensures |SlotsBefore(s.new_, id, n, i + 1)| == |SlotsBefore(s.new_, id, n, i)| + if u in s.new_ && s.new_[u] == id then 1 else 0 {
      SlotCounted(s.new_, id, n, i);
    }
    if u in s.new_ {
      SlotCounted(s.new_, s.new_[u], n, i);
    }
  }

  lemma NewStart(c: Config, s: State, left: map<int, int>)
    requires InGrid(s.new_, c.nBucketSize)
    requires forall id :: id in left <==> id in s.mapInfo && !s.mapInfo[id].fInTried
    requires forall id :: id in left ==> left[id] == s.mapInfo[id].nRefCount > 0
    ensures NewSoFar(c, s, 0, 0, left)
  {
    forall id ensures SlotsBefore(s.new_, id, 0, 0) == {} { }
  }

  lemma NewRow(c: Config, s: State, size: nat, n: int, left: map<int, int>)
    requires NewSoFar(c, s, n, size, left) && InGrid(s.new_, size)
    ensures NewSoFar(c, s, n + 1, 0, left)
  {
    hide SlotsBefore;
    RowEnd(s.new_, size, n);
  }

  lemma NewEnd(c: Config, s: State, left: map<int, int>)
    requires NewSoFar(c, s, c.nNewBuckets, 0, left) && forall u :: u in s.new_ ==> 0 <= u.0 < c.nNewBuckets
    ensures left == map[] <==> NewOk(c, s) && RefsExact(s)
  {
    forall u | u in s.new_ ensures NewAt(c, s, u) {
      assert Before(u, c.nNewBuckets, 0);
    }
    forall id ensures SlotsBefore(s.new_, id, c.nNewBuckets, 0) == SlotsOf(s.new_, id) { }
    if left == map[] {
      forall id | id in s.mapInfo && !s.mapInfo[id].fInTried ensures s.mapInfo[id].nRefCount == |SlotsOf(s.new_, id)| {
        assert Open(s, id, c.nNewBuckets, 0) == 0;
      }
    }
    if RefsExact(s) {
      forall id ensures id !in left {
        assert id in s.mapInfo && !s.mapInfo[id].fInTried ==> Open(s, id, c.nNewBuckets, 0) == 0;
      }
      assert left == map[];
    }
  }

  method CheckNew(m: AddrManager, mapNew: map<int, int>) returns (err: int, left: map<int, int>)
    requires m.Shape() && forall id :: id in mapNew <==> id in m.mapInfo && !m.mapInfo[id].fInTried
    requires forall id :: id in mapNew ==> mapNew[id] == m.mapInfo[id].nRefCount > 0
    ensures err != 0 ==> !(NewOk(m.c, m.Value()) && RefsExact(m.Value()))
    ensures err == 0 ==> (left == map[] <==> NewOk(m.c, m.Value()) && RefsExact(m.Value()))
  {
    hide NewOk, RefsExact, NewSoFar, InGrid;
    ghost var s := m.Value();
    left := mapNew;
    GridTable(m.vvNew);
    NewStart(m.c, s, left);
    for n := 0 to m.c.nNewBuckets
      invariant NewSoFar(m.c, s, n, 0, left)
    {
      for i := 0 to m.c.nBucketSize
        invariant NewSoFar(m.c, s, n, i, left)
      {
        TableAt(m.vvNew, n, i);
        NewNext(m.c, s, n, i, left);
        var id := m.vvNew[n, i];
        if id != -1 {
          if id !in left {
            return -12, left;
          }
          if m.c.position(m.mapInfo[id].addr.service, true, n) != i {
            return -19, left;
          }
          left := Discharged(left, id);
        }
      }
      NewRow(m.c, s, m.c.nBucketSize, n, left);
    }
    NewBuckets(m);
    NewEnd(m.c, s, left);
    err := 0;
  }

  lemma NewBuckets(m: AddrManager)
    requires m.Shape()
    ensures forall u :: u in m.Value().new_ ==> 0 <= u.0 < m.c.nNewBuckets
  {
  }

  /** The loop over the entries, in any order: collects the tried ids and the reference counts of the others. */
  method CheckEntries(m: AddrManager) returns (err: int, setTried: set<int>, mapNew: map<int, int>)
    ensures err == 0 <==> forall n :: n in m.mapInfo ==> EntryOk(m.Value(), n)
    ensures err == 0 ==> setTried == TriedIds(m.mapInfo) && (forall id :: id in mapNew <==> id in m.mapInfo && !m.mapInfo[id].fInTried)
    ensures err == 0 ==> forall id :: id in mapNew ==> mapNew[id] == m.mapInfo[id].nRefCount > 0
  {
    hide EntryOk;
    setTried, mapNew := {}, map[];
    ghost var s := m.Value();
    var left := m.mapInfo.Items;
    while left != {}
      invariant left <= m.mapInfo.Items
      invariant forall k :: k in m.mapInfo && (k, m.mapInfo[k]) !in left ==> EntryOk(s, k)
      invariant forall k :: k in setTried <==> k in m.mapInfo && (k, m.mapInfo[k]) !in left && m.mapInfo[k].fInTried
      invariant forall k :: k in mapNew <==> k in m.mapInfo && (k, m.mapInfo[k]) !in left && !m.mapInfo[k].fInTried
      invariant forall k :: k in mapNew ==> mapNew[k] == m.mapInfo[k].nRefCount > 0
      decreases left
    {
      var entry :| entry in left;
      var n := entry.0;
      err := CheckEntry(m, n);
      if err != 0 {
        return;
      }
      if m.mapInfo[n].fInTried {
        setTried := setTried + {n};
      } else {
        mapNew := mapNew[n := m.mapInfo[n].nRefCount];
      }
      left := left - {entry};
    }
    forall k ensures k in setTried <==> k in TriedIds(m.mapInfo) { }
    err := 0;
  }

  method CheckEntry(m: AddrManager, n: int) returns (err: int)
    requires n in m.mapInfo
    ensures err == 0 <==> EntryOk(m.Value(), n)
    ensures err == 0 && !m.mapInfo[n].fInTried ==> m.mapInfo[n].nRefCount > 0
  {
    var info := m.mapInfo[n];
    if info.fInTried {
      if info.nLastSuccess == 0 {
        return -1;
      }
      if info.nRefCount != 0 {
        return -2;
      }
    } else {
      if info.nRefCount < 0 || info.nRefCount > NEW_BUCKETS_PER_ADDRESS {
        return -3;
      }
      if info.nRefCount == 0 {
        return -4;
      }
    }
    if (if info.Ip() in m.mapAddr then m.mapAddr[info.Ip()] else 0) != n {
      return -5;
    }
    if info.nRandomPos < 0 || info.nRandomPos >= |m.vRandom| || m.vRandom[info.nRandomPos] != n {
      return -14;
    }
    if info.nLastTry < 0 {
      return -6;
    }
    if info.nLastSuccess < 0 {
      return -8;
    }
    return 0;
  }

  /** The check as a whole. */
  method Check(m: AddrManager) returns (err: int)
    requires m.Shape()
    ensures err == 0 <==> Checked(m.c, m.Value())
  {
    hide TriedOk, NewOk, RefsExact, EntryOk, TriedIds, NewIds;
    if |m.vRandom| != m.nTried + m.nNew {
      return -7;
    }
    var setTried, mapNew;
    err, setTried, mapNew := CheckEntries(m);
    if err != 0 {
      return;
    }
    NewKeys(m.mapInfo, mapNew);
    if |setTried| != m.nTried {
      return -9;
    }
    if |mapNew| != m.nNew {
      return -10;
    }
    err, setTried := CheckTried(m, setTried);
    if err != 0 {
      return;
    }
    err, mapNew := CheckNew(m, mapNew);
    if err != 0 {
      return;
    }
    if setTried != {} {
      return -13;
    }
    if mapNew != map[] {
      return -15;
    }
    return 0;
  }

  lemma NewKeys(m: map<int, AddrInfo>, mapNew: map<int, int>)
    requires forall id :: id in mapNew <==> id in m && !m[id].fInTried
    ensures |mapNew| == |NewIds(m, {})|
  {
    forall id ensures id in mapNew.Keys <==> id in NewIds(m, {}) { }
    assert mapNew.Keys == NewIds(m, {});
  }
}
