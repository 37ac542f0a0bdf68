/**
 The times that the address manager is given, and when they keep it
 consistent.  The indexes agree whatever the times are; but the debug check
 also wants no negative time, and a success on record for every tried entry.
 */
module AddrManTimes {
  import opened AddrMan
  import opened AddrManOps
  import opened AddrManRuns
  import opened AddrManEffects

  /** Entries that kept their times and came into no tried slot are as fine as they were. */
  lemma TimesSurvive(c: Config, s: State, s': State, id: int)
    requires TriedOk(c, s) && TriedOk(c, s') && Survivors(s, s')
    requires forall n :: n in s.mapInfo && n != id ==> TimesFine(s.mapInfo[n])
    requires forall u :: u in s'.tried ==> s'.tried[u] == id || (u in s.tried && s.tried[u] == s'.tried[u])
    ensures forall n :: n in s'.mapInfo && n != id ==> TimesFine(s'.mapInfo[n])
  {
    forall n | n in s'.mapInfo && n != id ensures TimesFine(s'.mapInfo[n]) {
      if s'.mapInfo[n].fInTried {
        var u := TriedSlot(c, s'.mapInfo[n].addr.service);
        assert u in s'.tried && s'.tried[u] == n;
        assert s.tried[u] in s.mapInfo && s.mapInfo[s.tried[u]].fInTried;
      }
    }
  }

  /** An entry may become tried exactly when a success is on record for it. */
  lemma MakeTriedExactly(c: Config, s: State, id: int)
    requires Indexed(c, s) && id in s.mapInfo && !s.mapInfo[id].fInTried
    requires forall n :: n in s.mapInfo && n != id ==> TimesFine(s.mapInfo[n])
    ensures Consistent(c, MakeTried(c, s, id)) <==> s.mapInfo[id].nLastTry >= 0 && s.mapInfo[id].nLastSuccess > 0
  {
    hide MakeTried, RandOk, NewOk, RefOk, CountOk, Named;
    var s', u := MakeTried(c, s, id), TriedSlot(c, s.mapInfo[id].addr.service);
    MakeTriedTouches(c, s, id);
    MakeTriedKeeps(c, s, id);
    TimesSurvive(c, s, s', id);
    assert u in s'.tried && s'.tried[u] == id;
    assert id in s'.mapInfo && s'.mapInfo[id].fInTried;
  }

  /** The times at which Good leaves a consistent manager consistent: a time of zero only while the address
      waits for its collision to be resolved. */
  predicate GoodTimely(c: Config, s: State, svc: Service, testBeforeEvict: bool, nTime: int) {
    || !Known(s, svc) || nTime > 0
    || (nTime == 0 && !s.mapInfo[s.mapAddr[svc.ip]].fInTried && testBeforeEvict && TriedSlot(c, svc) in s.tried)
  }

  lemma GoodExactly(c: Config, s: State, svc: Service, testBeforeEvict: bool, nTime: int)
    requires Consistent(c, s)
    ensures Consistent(c, Good(c, s, svc, testBeforeEvict, nTime)) <==> GoodTimely(c, s, svc, testBeforeEvict, nTime)
  {
    hide Mid, MakeTried;
    GoodKeeps(c, s, svc, testBeforeEvict, nTime);
    if Known(s, svc) {
      var id, s' := s.mapAddr[svc.ip], Good(c, s, svc, testBeforeEvict, nTime);
      var s1 := PutInfo(s.(nLastGood := nTime), id, Marked(s.mapInfo[id], nTime));
      MarkKeeps(c, s, id, nTime);
      if s1.mapInfo[id].fInTried || (testBeforeEvict && TriedSlot(c, svc) in s.tried) {
        assert s'.mapInfo == s.mapInfo[id := Marked(s.mapInfo[id], nTime)];
        TouchedTimes(s, s', id);
      } else {
        MakeTriedExactly(c, s1, id);
      }
    }
  }

  lemma TouchedTimes(s: State, s': State, id: int)
    requires id in s'.mapInfo && s'.mapInfo == s.mapInfo[id := s'.mapInfo[id]] && TimeOk(s)
    ensures TimeOk(s') <==> TimesFine(s'.mapInfo[id])
  {
  }

  lemma AttemptExactly(c: Config, s: State, svc: Service, fCountFailure: bool, nTime: int)
    requires Consistent(c, s)
    ensures Consistent(c, Attempt(s, svc, fCountFailure, nTime)) <==> !Known(s, svc) || nTime >= 0
  {
    hide Mid;
    AttemptKeeps(c, s, svc, fCountFailure, nTime);
    if Known(s, svc) {
      var id := s.mapAddr[svc.ip];
      assert TimesFine(s.mapInfo[id]);
      TouchedTimes(s, Attempt(s, svc, fCountFailure, nTime), id);
    }
  }

  lemma ResolveOneExactly(c: Config, s: State, id: int, now: int)
    requires Consistent(c, s)
    ensures Consistent(c, ResolveOne(c, s, id, now)) <==> Judge(c, s, id, now) != Replace || now > 0
  {
    hide Mid, Good;
    ResolveOneKeeps(c, s, id, now);
    if Judge(c, s, id, now) == Replace {
      var svc := s.mapInfo[id].addr.service;
      FoundByAddress(c, s, id);
      GoodExactly(c, s, svc, false, now);
      GoodKeeps(c, s, svc, false, now);
    }
  }

  lemma AddTimes(c: Config, s: State, addr: Address, source: NetAddr, nTimePenalty: int, now: int, draw: nat)
    requires Consistent(c, s)
    ensures Consistent(c, Add(c, s, addr, source, nTimePenalty, now, draw).0)
  {
    hide Mid, PlaceNew, Placeable;
    var s' := Add(c, s, addr, source, nTimePenalty, now, draw).0;
    AddKeeps(c, s, addr, source, nTimePenalty, now, draw);
    var penalty := if addr.service.ip == source then 0 else nTimePenalty;
    if c.routable(addr.service.ip) {
      if addr.service.ip in s.mapAddr {
        KnownEntry(c, s, addr.service.ip);
        var id := s.mapAddr[addr.service.ip];
        var s1 := PutInfo(s, id, Announced(s.mapInfo[id], addr, penalty, now));
        assert TimesFine(s.mapInfo[id]);
        TouchedTimes(s, s1, id);
        if !NothingNew(s1.mapInfo[id], addr, draw) {
          AnnouncedPlaceable(c, s, id, addr, penalty, now);
          PlacedTimes(c, s1, id, source, now, false);
        }
      } else {
        var s1 := Enrolled(s, addr, source, penalty);
        EnrolledPlaceable(c, s, addr, source, penalty);
        PlacedTimes(c, s1, s.nIdCount, source, now, true);
      }
    }
  }

  lemma PlacedTimes(c: Config, s: State, id: int, source: NetAddr, now: int, created: bool)
    requires Placeable(c, s, id, created) && TimeOk(s)
    ensures TimeOk(PlaceNew(c, s, id, source, now, created))
  {
    hide PlaceNew;
    var s' := PlaceNew(c, s, id, source, now, created);
    PlaceNewEvolves(c, s, id, source, now, created);
    PlaceNewKeeps(c, s, id, source, now, created);
    assert -1 !in s'.mapInfo;
    TimesSurvive(c, s, s', -1);
  }

  /** A change that leaves times and tables alone. */
  lemma OtherTimes(s: State, s': State)
    requires TimeOk(s) && s'.mapInfo.Keys == s.mapInfo.Keys
    requires forall n :: n in s'.mapInfo ==>
               && s'.mapInfo[n].nLastTry == s.mapInfo[n].nLastTry && s'.mapInfo[n].nLastSuccess == s.mapInfo[n].nLastSuccess
               && s'.mapInfo[n].fInTried == s.mapInfo[n].fInTried
    ensures TimeOk(s')
  {
  }

  lemma GatherTimes(s: State, now: int, draws: nat -> nat, limit: nat)
    requires RandOk(s) && TimeOk(s)
    ensures TimeOk(Gather(s, now, draws, limit, 0, []).0)
  {
    hide Gather, RandOk;
    GatherLeaves(s, now, draws, limit, 0, []);
    OtherTimes(s, Gather(s, now, draws, limit, 0, []).0);
  }

  lemma FineAt(s: State, n: int)
    requires TimeOk(s) && n in s.mapInfo
    ensures s.mapInfo[n].fInTried ==> s.mapInfo[n].nLastSuccess > 0
  {
    assert TimesFine(s.mapInfo[n]);
  }

  /** The id is known and its tried slot is empty. */
  predicate Unbacked(c: Config, s: State, id: int) {
    id in s.mapInfo && c.valid(s.mapInfo[id].Ip()) && TriedSlot(c, s.mapInfo[id].addr.service) !in s.tried
  }

  /** Before the epoch only an empty slot is taken: the holder of a tried slot has a success on record. */
  lemma EarlyJudge(c: Config, s: State, id: int, now: int)
    requires Consistent(c, s) && now <= 0
    ensures Judge(c, s, id, now) == Replace <==> Unbacked(c, s, id)
  {
    hide RandOk, NewOk, RefOk, CountOk, Named, TimesFine;
    if id in s.mapInfo {
      var u := TriedSlot(c, s.mapInfo[id].addr.service);
      if u in s.tried {
        assert s.tried[u] in s.mapInfo && s.mapInfo[s.tried[u]].fInTried;
        FineAt(s, s.tried[u]);
      }
    }
  }

  /** Some entry became tried at this time. */
  ghost predicate TriedAt(s: State, now: int) {
    exists n :: n in s.mapInfo && s.mapInfo[n].fInTried && s.mapInfo[n].nLastSuccess == now
  }

  /** A collision that is resolved in favour of the newcomer leaves it tried at this time. */
  lemma ReplacedTried(c: Config, s: State, id: int, now: int)
    requires Indexed(c, s) && Judge(c, s, id, now) == Replace
    ensures TriedAt(ResolveOne(c, s, id, now), now)
  {
    hide Mid, Good, Displaced;
    var svc := s.mapInfo[id].addr.service;
    FoundByAddress(c, s, id);
    if s.mapInfo[id].fInTried {
      GoodOtherwise(c, s, svc, false, now);
    } else {
      GoodEstablishes(c, s, svc, false, now);
    }
    assert id in ResolveOne(c, s, id, now).mapInfo;
  }

  /** So there is one at the end of the call once there is one. */
  lemma TriedStays(c: Config, s: State, id: int, now: int)
    requires Indexed(c, s) && TriedAt(s, now)
    ensures TriedAt(ResolveStep(c, s, id, now), now)
  {
    hide Mid, Good;
    if id in s.collisions && Judge(c, s, id, now) == Replace {
      ReplacedTried(c, s, id, now);
    } else {
      var n :| n in s.mapInfo && s.mapInfo[n].fInTried && s.mapInfo[n].nLastSuccess == now;
      assert n in ResolveStep(c, s, id, now).mapInfo;
    }
  }

  /** Nothing but collisions is gone, and none whose slot is empty. */
  ghost predicate OnlyDropped(c: Config, s: State, s': State) {
    && s' == s.(collisions := s'.collisions) && s'.collisions <= s.collisions
    && forall id :: id in s.collisions && Unbacked(c, s, id) ==> id in s'.collisions
  }

  ghost predicate NoneUnbacked(c: Config, s: State, ids: seq<int>) {
    forall id :: id in ids && id in s.collisions ==> !Unbacked(c, s, id)
  }

  lemma DropStep(c: Config, s: State, t: State, id: int, now: int)
    requires Consistent(c, s) && now <= 0 && Indexed(c, t) && OnlyDropped(c, s, t)
    ensures if id in s.collisions && Unbacked(c, s, id) then TriedAt(ResolveStep(c, t, id, now), now)
            else OnlyDropped(c, s, ResolveStep(c, t, id, now))
  {
    hide Mid, Good, TimeOk, TriedAt;
    EarlyJudge(c, s, id, now);
    SameJudge(c, s, t, id, now);
    if id in s.collisions && Unbacked(c, s, id) {
      ReplacedTried(c, t, id, now);
    }
  }

  lemma SameJudge(c: Config, s: State, t: State, id: int, now: int)
    requires Indexed(c, s) && Indexed(c, t) && t == s.(collisions := t.collisions)
    ensures Judge(c, s, id, now) == Judge(c, t, id, now)
  {
  }

  /** Before the epoch, the first collision with an empty slot decides. */
  lemma {:induction false} ResolveEarly(c: Config, s: State, now: int, pending: seq<int>, n: nat)
    requires Consistent(c, s) && now <= 0 && n <= |pending|
    ensures var t := Fold(ResolveFn(c, now), s, pending, n);
            Indexed(c, t) && if NoneUnbacked(c, s, pending[..n]) then OnlyDropped(c, s, t) else TriedAt(t, now)
  {
    hide Mid, TimeOk, ResolveStep, Unbacked, OnlyDropped, TriedAt, Evolves, CollisionsOk;
    if n == 0 {
      NoneDropped(c, s);
    } else {
      var t, id := Fold(ResolveFn(c, now), s, pending, n - 1), pending[n - 1];
      ResolveEarly(c, s, now, pending, n - 1);
      ResolveStepEvolves(c, t, id, now);
      assert pending[..n] == pending[..n - 1] + [id];
      if NoneUnbacked(c, s, pending[..n - 1]) {
        DropStep(c, s, t, id, now);
      } else {
        TriedStays(c, t, id, now);
      }
    }
  }

  lemma NoneDropped(c: Config, s: State)
    ensures OnlyDropped(c, s, s)
  {
  }

  /** Resolving collisions keeps a consistent manager consistent exactly at a positive time, or when no pending id
      that is known has its tried slot empty. */
  lemma ResolveExactly(c: Config, s: State, now: int, pending: seq<int>)
    requires Consistent(c, s)
    ensures Consistent(c, Resolve(c, s, now, pending)) <==> now > 0 || NoneUnbacked(c, s, pending)
  {
    hide Mid, ResolveOne, NoneUnbacked, Judge;
    if now > 0 {
      var P := (t: State) => Consistent(c, t);
      forall t, id | P(t) && id in pending ensures P(ResolveFn(c, now)(t, id)) {
        ResolveOneExactly(c, t, id, now);
      }
      FoldKeeps(P, ResolveFn(c, now), s, pending, |pending|);
    } else {
      ResolveEarly(c, s, now, pending, |pending|);
      assert pending[..|pending|] == pending;
    }
  }

  /** In particular where what is pending has its slot taken, as in runs. */
  lemma BackedResolves(c: Config, s: State, pending: seq<int>)
    requires CollisionsOk(c, s)
    ensures NoneUnbacked(c, s, pending)
  {
    forall id | id in pending && id in s.collisions ensures !Unbacked(c, s, id) {
      assert Backed(c, s, id);
    }
  }

  // ------------------------------------------------------------------
  // Whole runs
  // ------------------------------------------------------------------

  /** The operation is one that keeps this manager consistent. */
  ghost predicate Timely(c: Config, s: State, op: Op) {
    match op
    case DoGood(svc, test, nTime) => GoodTimely(c, s, svc, test, nTime)
    case DoAttempt(svc, _, nTime) => !Known(s, svc) || nTime >= 0
    case DoResolve(now, pending) => now > 0 || NoneUnbacked(c, s, pending)
    case DoSelect(_) => !Blind(c, s, op)
    case _ => true
  }

  /** A consistent manager stays consistent exactly when the operation is timely. */
  lemma ApplyExactly(c: Config, s: State, op: Op)
    requires Consistent(c, s) && Keyed(op)
    ensures Consistent(Rekeyed(c, op), Apply(c, s, op)) <==> Timely(c, s, op)
  {
    hide Mid, Good, Attempt, Add, Gather, TimeOk, GoodTimely, Known, AfterSelect, NoneUnbacked, Blind;
    match op
    case DoAdd(addr, source, penalty, now, draw) => AddTimes(c, s, addr, source, penalty, now, draw);
    case DoGood(svc, test, nTime) => GoodExactly(c, s, svc, test, nTime);
    case DoAttempt(svc, fCount, nTime) => AttemptExactly(c, s, svc, fCount, nTime);
    case DoConnected(svc, nTime) => ConnectedTimes(c, s, svc, nTime, {});
    case DoSetServices(svc, nServices) => ConnectedTimes(c, s, svc, 0, nServices);
    case DoGetAddr(now, draws) => GatheredTimes(c, s, now, draws);
    case DoResolve(now, pending) => ResolveExactly(c, s, now, pending);
    case DoSelect(id) => SelectTimes(c, s, id);
    case DoClear(hashes) => ClearedTimes(hashes, s);
  }

  lemma ClearedTimes(c: Config, s: State)
    requires Sized(c)
    ensures Consistent(c, Cleared(s))
  {
    ClearedIndexed(c, s);
  }

  lemma ConnectedTimes(c: Config, s: State, svc: Service, nTime: int, nServices: set<nat>)
    requires Consistent(c, s)
    ensures Consistent(c, Connected(s, svc, nTime)) && Consistent(c, SetServices(s, svc, nServices))
  {
    hide Mid;
    ConnectedKeeps(c, s, svc, nTime, nServices);
    OtherTimes(s, Connected(s, svc, nTime));
    OtherTimes(s, SetServices(s, svc, nServices));
  }

  lemma GatheredTimes(c: Config, s: State, now: int, draws: nat -> nat)
    requires Consistent(c, s)
    ensures RandOk(s) && Consistent(c, Gather(s, now, draws, GetAddrLimit(s), 0, []).0)
  {
    hide Gather, RandOk, TimeOk;
    var s' := GatherKeeps(c, s, now, draws, GetAddrLimit(s), 0, []);
    GatherTimes(s, now, draws, GetAddrLimit(s));
  }

  lemma SelectTimes(c: Config, s: State, id: int)
    requires Consistent(c, s)
    ensures Consistent(c, AfterSelect(c, s, id)) <==> !Blind(c, s, DoSelect(id))
  {
    hide Mid, CollisionsOk, Evolves, Few;
    SelectApplied(c, s, id);
    if id in s.collisions && id in s.mapInfo && !Blind(c, s, DoSelect(id)) {
      HolderKnown(c, s, TriedSlot(c, s.mapInfo[id].addr.service));
    }
  }

  ghost predicate ConsistentAt(w: World, ops: seq<Op>, k: nat)
    requires k <= |ops|
  {
    var v := Run(w, ops, k); Consistent(v.c, v.s)
  }

  ghost predicate TimelyAt(w: World, ops: seq<Op>, k: nat)
    requires k < |ops|
  {
    var v := Run(w, ops, k); Timely(v.c, v.s, ops[k])
  }

  /** A run keeps a consistent manager consistent all along if and only if each of its operations is timely where it
      happens. */
  lemma {:induction false} RunConsistent(w: World, ops: seq<Op>, n: nat)
    requires Consistent(w.c, w.s) && n <= |ops| && forall op :: op in ops ==> Keyed(op)
    ensures (forall k :: 0 <= k <= n ==> ConsistentAt(w, ops, k)) <==> (forall k :: 0 <= k < n ==> TimelyAt(w, ops, k))
  {
    hide Mid, TimeOk, Apply, Timely, Keyed;
    if n > 0 {
      RunConsistent(w, ops, n - 1);
      var v := Run(w, ops, n - 1);
      assert ConsistentAt(w, ops, n - 1) <==> Consistent(v.c, v.s);
      if Consistent(v.c, v.s) {
        ApplyExactly(v.c, v.s, ops[n - 1]);
        assert TimelyAt(w, ops, n - 1) <==> ConsistentAt(w, ops, n);
      }
    }
  }
}
