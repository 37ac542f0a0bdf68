/** Tried-table collisions, and what holds over whole runs of address manager operations. */
module AddrManRuns {
  import opened Basics
  import opened AddrMan
  import opened AddrManOps

  // ------------------------------------------------------------------
  // Resolving collisions
  // ------------------------------------------------------------------

  datatype Verdict = Keep | Drop | Replace

  /** What to do about the pending entry `id`. */
  function Judge(c: Config, s: State, id: int, now: int): Verdict
    requires Indexed(c, s)
  {
    if id !in s.mapInfo then Drop
    else
      var info := s.mapInfo[id];
      var u := TriedSlot(c, info.addr.service);
      if !c.valid(info.Ip()) then Drop
      else if u in s.tried then
        var holder := s.mapInfo[s.tried[u]];
        if now - holder.nLastSuccess < REPLACEMENT_HOURS * (60 * 60) then Drop
        else if now - holder.nLastTry < REPLACEMENT_HOURS * (60 * 60) then
          if now - holder.nLastTry > 60 then Replace else Keep
        else if now - info.nLastSuccess > TEST_WINDOW then Replace
        else Keep
      else Replace
  }

  function ResolveOne(c: Config, s: State, id: int, now: int): State
    requires Indexed(c, s)
  {
    match Judge(c, s, id, now)
    case Keep => s
    case Drop => s.(collisions := s.collisions - {id})
    case Replace =>
      var s1 := Good(c, s, s.mapInfo[id].addr.service, false, now);
      s1.(collisions := s1.collisions - {id})
  }

  lemma ResolveOneKeeps(c: Config, s: State, id: int, now: int)
    requires Indexed(c, s)
    ensures Indexed(c, ResolveOne(c, s, id, now))
  {
    match Judge(c, s, id, now)
    case Keep =>
    case Drop =>
      Unindexed(c, s, s.nLastGood, s.collisions - {id});
    case Replace =>
      var s1 := Good(c, s, s.mapInfo[id].addr.service, false, now);
      GoodKeeps(c, s, s.mapInfo[id].addr.service, false, now);
      Unindexed(c, s1, s1.nLastGood, s1.collisions - {id});
  }

  function ResolveStep(c: Config, s: State, id: int, now: int): State
    requires Indexed(c, s)
  {
    if id in s.collisions then ResolveOne(c, s, id, now) else s
  }

  lemma ResolvedState(c: Config, s: State, id: int, now: int) returns (s': State)
    requires Indexed(c, s)
    ensures s' == ResolveStep(c, s, id, now) && Indexed(c, s')
  {
    s' := ResolveStep(c, s, id, now);
    ResolveOneKeeps(c, s, id, now);
  }

  // ------------------------------------------------------------------
  // What no operation takes back
  // ------------------------------------------------------------------

  /** No tried slot is emptied, ids are not reused, and an entry keeps its address and port. */
  ghost predicate Evolves(s: State, s': State) {
    && (forall u :: u in s.tried ==> u in s'.tried)
    && s.nIdCount <= s'.nIdCount
    && (forall n :: n in s'.mapInfo && n < s.nIdCount ==>
          n in s.mapInfo && s'.mapInfo[n].addr.service == s.mapInfo[n].addr.service)
  }

  lemma EvolvesTwice(s: State, s1: State, s2: State)
    requires Evolves(s, s1) && Evolves(s1, s2)
    ensures Evolves(s, s2)
  {
  }

  /** At most ten collisions are pending; each was an id once given out, and as long as it is known its tried
      slot is occupied. */
  ghost predicate CollisionsOk(c: Config, s: State) {
    Few(s) && forall id :: id in s.collisions ==> Backed(c, s, id)
  }

  ghost predicate Few(s: State) { |s.collisions| <= SET_TRIED_COLLISION_SIZE }

  ghost predicate Backed(c: Config, s: State, id: int) {
    && 0 <= id < s.nIdCount
    && (id in s.mapInfo ==> TriedSlot(c, s.mapInfo[id].addr.service) in s.tried)
  }

  lemma CollisionsFrame(c: Config, s: State, s': State)
    requires CollisionsOk(c, s) && Evolves(s, s') && s'.collisions <= s.collisions
    ensures CollisionsOk(c, s')
  {
    SubsetSize(s'.collisions, s.collisions);
  }

  lemma FewFrame(s: State, s': State)
    requires Few(s) && s'.collisions <= s.collisions
    ensures Few(s')
  {
    SubsetSize(s'.collisions, s.collisions);
  }

  lemma PromoteEvolves(c: Config, s: State, id: int, testBeforeEvict: bool)
    requires Indexed(c, s) && id in s.mapInfo && !s.mapInfo[id].fInTried
    ensures Evolves(s, Promote(c, s, id, testBeforeEvict))
    ensures CollisionsOk(c, s) ==> CollisionsOk(c, Promote(c, s, id, testBeforeEvict))
    ensures Few(s) ==> Few(Promote(c, s, id, testBeforeEvict))
    ensures !testBeforeEvict ==> Promote(c, s, id, testBeforeEvict).collisions == s.collisions
  {
    hide RandOk, TriedOk, NewOk, RefOk, CountOk, AddrOk, MakeTried, SlotsOf;
    var s' := Promote(c, s, id, testBeforeEvict);
    if !(testBeforeEvict && TriedSlot(c, s.mapInfo[id].addr.service) in s.tried) {
      MakeTriedTouches(c, s, id);
      MovedEvolves(s, s');
      if CollisionsOk(c, s) {
        CollisionsFrame(c, s, s');
      }
    }
  }

  lemma MovedEvolves(s: State, s': State)
    requires s'.nIdCount == s.nIdCount && Survivors(s, s') && forall u :: u in s.tried ==> u in s'.tried
    ensures Evolves(s, s')
  {
  }

  lemma GoodEvolves(c: Config, s: State, svc: Service, testBeforeEvict: bool, nTime: int)
    requires Indexed(c, s)
    ensures GoodSince(c, s, Good(c, s, svc, testBeforeEvict, nTime))
    ensures !testBeforeEvict ==> Good(c, s, svc, testBeforeEvict, nTime).collisions == s.collisions
  {
    hide Mid, Promote, Evolves, CollisionsOk;
    GoodKeeps(c, s, svc, testBeforeEvict, nTime);
    if Known(s, svc) {
      var id := s.mapAddr[svc.ip];
      var s1 := PutInfo(s.(nLastGood := nTime), id, Marked(s.mapInfo[id], nTime));
      MarkKeeps(c, s, id, nTime);
      TouchedEvolves(c, s, s1);
      if !s1.mapInfo[id].fInTried {
        PromoteEvolves(c, s1, id, testBeforeEvict);
        EvolvesTwice(s, s1, Promote(c, s1, id, testBeforeEvict));
      }
    } else {
      TouchedEvolves(c, s, s.(nLastGood := nTime));
    }
  }

  /** A change of statistics only. */
  lemma TouchedEvolves(c: Config, s: State, s': State)
    requires s'.nIdCount == s.nIdCount && s'.tried == s.tried && s'.collisions == s.collisions
    requires s'.mapInfo.Keys == s.mapInfo.Keys
    requires forall n :: n in s'.mapInfo ==> s'.mapInfo[n].addr.service == s.mapInfo[n].addr.service
    ensures Evolves(s, s') && (CollisionsOk(c, s) ==> CollisionsOk(c, s'))
  {
  }

  lemma ResolveOneEvolves(c: Config, s: State, id: int, now: int)
    requires Indexed(c, s)
    ensures Evolves(s, ResolveOne(c, s, id, now))
    ensures CollisionsOk(c, s) ==> CollisionsOk(c, ResolveOne(c, s, id, now))
    ensures ResolveOne(c, s, id, now).collisions <= s.collisions
  {
    match Judge(c, s, id, now)
    case Keep =>
    case Drop =>
      if CollisionsOk(c, s) {
        CollisionsFrame(c, s, ResolveOne(c, s, id, now));
      }
    case Replace =>
      var s1 := Good(c, s, s.mapInfo[id].addr.service, false, now);
      GoodEvolves(c, s, s.mapInfo[id].addr.service, false, now);
      if CollisionsOk(c, s) {
        CollisionsFrame(c, s1, s1.(collisions := s1.collisions - {id}));
      }
  }

  lemma ResolveStepEvolves(c: Config, s: State, id: int, now: int)
    requires Indexed(c, s)
    ensures GoodSince(c, s, ResolveStep(c, s, id, now)) && ResolveStep(c, s, id, now).collisions <= s.collisions
  {
    hide Mid, Evolves, CollisionsOk;
    ResolveOneKeeps(c, s, id, now);
    ResolveOneEvolves(c, s, id, now);
    if id in s.collisions && Few(s) {
      FewFrame(s, ResolveOne(c, s, id, now));
    }
    if id !in s.collisions {
      TouchedEvolves(c, s, s);
    }
  }

  /** Nothing but the new table and its entries changes, and no entry appears. */
  ghost predicate Steady(s: State, s': State) {
    s'.tried == s.tried && s'.nIdCount == s.nIdCount && s'.collisions == s.collisions && Survivors(s, s')
  }

  lemma TakenSteady(s: State, s1: State, u: Slot, id: int)
    requires Shrunk(s, s1) && id in s1.mapInfo
    ensures Steady(s, TakeSlot(s1, u, id))
  {
  }

  lemma DeletedSteady(c: Config, s: State, id: int)
    requires Mid(c, s, {id}, 1)
    ensures Steady(s, Delete(s, id))
  {
    hide Mid, Delete, RandOk;
    DeleteTouches(c, s, id, {id}, 1);
  }

  lemma PlaceNewEvolves(c: Config, s: State, id: int, source: NetAddr, now: int, created: bool)
    requires Placeable(c, s, id, created)
    ensures Steady(s, PlaceNew(c, s, id, source, now, created))
  {
    var u := NewSlot(c, s.mapInfo[id].addr.service, source);
    PlaceNewRefused(c, s, id, created);
    if u in s.new_ && s.new_[u] == id {
    } else if !Blocked(s, u, id, now) {
      ClearNewTouches(c, s, u, if created then {id} else {}, if created then 1 else 0);
      hide Mid, Shrunk, Steady;
      TakenSteady(s, ClearNew(s, u), u, id);
    } else if created {
      hide Mid, Steady;
      DeletedSteady(c, s, id);
    }
  }

  lemma SteadyEvolves(s: State, s1: State, s': State)
    requires Evolves(s, s1) && s1.collisions == s.collisions && Steady(s1, s')
    ensures Evolves(s, s') && s'.collisions == s.collisions
  {
    MovedEvolves(s1, s');
    EvolvesTwice(s, s1, s');
  }

  lemma AnnouncedEvolves(c: Config, s: State, addr: Address, penalty: int, now: int)
    requires Indexed(c, s) && addr.service.ip in s.mapAddr
    ensures s.mapAddr[addr.service.ip] in s.mapInfo
    ensures var id := s.mapAddr[addr.service.ip];
            Evolves(s, PutInfo(s, id, Announced(s.mapInfo[id], addr, penalty, now)))
  {
    var id := s.mapAddr[addr.service.ip];
    TouchedEvolves(c, s, PutInfo(s, id, Announced(s.mapInfo[id], addr, penalty, now)));
  }

  lemma EnrolledEvolves(s: State, addr: Address, source: NetAddr, penalty: int)
    ensures Evolves(s, Enrolled(s, addr, source, penalty)) && Enrolled(s, addr, source, penalty).collisions == s.collisions
  {
  }

  lemma AddEvolves(c: Config, s: State, addr: Address, source: NetAddr, nTimePenalty: int, now: int, draw: nat)
    requires Indexed(c, s)
    ensures GoodSince(c, s, Add(c, s, addr, source, nTimePenalty, now, draw).0)
    ensures Add(c, s, addr, source, nTimePenalty, now, draw).0.collisions == s.collisions
  {
    hide Mid, Steady, PlaceNew, Enrolled, CollisionsOk, Placeable, Evolves;
    AddKeeps(c, s, addr, source, nTimePenalty, now, draw);
    var s' := Add(c, s, addr, source, nTimePenalty, now, draw).0;
    var penalty := if addr.service.ip == source then 0 else nTimePenalty;
    if !c.routable(addr.service.ip) {
      TouchedEvolves(c, s, s);
    } else if addr.service.ip in s.mapAddr {
      AnnouncedEvolves(c, s, addr, penalty, now);
      var id := s.mapAddr[addr.service.ip];
      var s1 := PutInfo(s, id, Announced(s.mapInfo[id], addr, penalty, now));
      if !NothingNew(s1.mapInfo[id], addr, draw) {
        AnnouncedPlaceable(c, s, id, addr, penalty, now);
        PlaceNewEvolves(c, s1, id, source, now, false);
        SteadyEvolves(s, s1, s');
      }
    } else {
      EnrolledEvolves(s, addr, source, penalty);
      EnrolledPlaceable(c, s, addr, source, penalty);
      PlaceNewEvolves(c, Enrolled(s, addr, source, penalty), s.nIdCount, source, now, true);
      SteadyEvolves(s, Enrolled(s, addr, source, penalty), s');
    }
    if CollisionsOk(c, s) {
      CollisionsFrame(c, s, s');
    }
  }

  // ------------------------------------------------------------------
  // Doing one thing after another
  // ------------------------------------------------------------------

  ghost function Fold<A(!new)>(step: (State, A) -> State, s: State, xs: seq<A>, n: nat): State
    requires n <= |xs|
  {
    if n == 0 then s else step(Fold(step, s, xs, n - 1), xs[n - 1])
  }

  lemma {:induction false} FoldKeeps<A(!new)>(P: State -> bool, step: (State, A) -> State, s: State, xs: seq<A>, n: nat)
    requires n <= |xs| && P(s) && forall t, x :: P(t) && x in xs ==> P(step(t, x))
    ensures P(Fold(step, s, xs, n))
  {
    if n > 0 {
      FoldKeeps(P, step, s, xs, n - 1);
    }
  }

  lemma FoldNext<A(!new)>(step: (State, A) -> State, s: State, xs: seq<A>, n: nat, before: State, after: State)
    requires n < |xs| && before == Fold(step, s, xs, n) && after == step(before, xs[n])
    ensures after == Fold(step, s, xs, n + 1)
  {
  }

  ghost function ResolveFn(c: Config, now: int): (State, int) -> State
  {
    (s: State, id: int) => if Indexed(c, s) then ResolveStep(c, s, id, now) else s
  }

  /** ResolveCollisions: `pending` are the ids of the ordered set in increasing order. */
  ghost function Resolve(c: Config, s: State, now: int, pending: seq<int>): State
  {
    Fold(ResolveFn(c, now), s, pending, |pending|)
  }

  /** The indexes agree, and nothing since `s0` was taken back. */
  ghost predicate GoodSince(c: Config, s0: State, s: State) {
    Indexed(c, s) && Evolves(s0, s) && (CollisionsOk(c, s0) ==> CollisionsOk(c, s)) && (Few(s0) ==> Few(s))
  }

  lemma GoodSinceStep(c: Config, s0: State, s: State, s': State)
    requires GoodSince(c, s0, s) && GoodSince(c, s, s')
    ensures GoodSince(c, s0, s')
  {
    EvolvesTwice(s0, s, s');
  }

  /** One collision resolved: it is gone or it is backed, and the others are as they were. */
  lemma ResolveStepBacks(c: Config, s: State, id: int, now: int)
    requires Indexed(c, s)
    ensures var s' := ResolveStep(c, s, id, now);
            && (id in s'.collisions ==> Backed(c, s', id))
            && forall n :: n in s'.collisions && Backed(c, s, n) ==> Backed(c, s', n)
  {
    hide RandOk, TriedOk, NewOk, RefOk, CountOk, AddrOk, Good, Evolves;
    ResolveStepEvolves(c, s, id, now);
    var s' := ResolveStep(c, s, id, now);
    forall n | n in s'.collisions && Backed(c, s, n) ensures Backed(c, s', n) {
      BackedStays(c, s, s', n);
    }
  }

  lemma BackedStays(c: Config, s: State, s': State, id: int)
    requires Evolves(s, s') && Backed(c, s, id)
    ensures Backed(c, s', id)
  {
  }

  /** Resolving all pending ids leaves only backed ones, whatever they were before. */
  lemma {:induction false} ResolveBacks(c: Config, s: State, now: int, pending: seq<int>, n: nat)
    requires Indexed(c, s) && n <= |pending|
    ensures var s' := Fold(ResolveFn(c, now), s, pending, n);
            && GoodSince(c, s, s') && s'.collisions <= s.collisions
            && forall id :: id in s'.collisions && id in pending[..n] ==> Backed(c, s', id)
  {
    hide Mid, ResolveStep, Evolves, Backed, CollisionsOk, Few;
    if n > 0 {
      ResolveBacks(c, s, now, pending, n - 1);
      var t, id := Fold(ResolveFn(c, now), s, pending, n - 1), pending[n - 1];
      ResolveStepEvolves(c, t, id, now);
      ResolveStepBacks(c, t, id, now);
      GoodSinceStep(c, s, t, ResolveStep(c, t, id, now));
      assert pending[..n] == pending[..n - 1] + [id];
    } else {
      TouchedEvolves(c, s, s);
    }
  }

  lemma ResolveKeeps(c: Config, s: State, now: int, pending: seq<int>)
    requires Indexed(c, s)
    ensures GoodSince(c, s, Resolve(c, s, now, pending))
  {
    ResolveBacks(c, s, now, pending, |pending|);
  }

  /** ResolveCollisions gives meaning to pending collisions that had lost it. */
  lemma ResolveRepairs(c: Config, s: State, now: int, pending: seq<int>)
    requires Indexed(c, s) && Few(s) && forall id :: id in s.collisions ==> id in pending
    ensures CollisionsOk(c, Resolve(c, s, now, pending))
  {
    hide Mid, Backed, Evolves, ResolveStep;
    ResolveBacks(c, s, now, pending, |pending|);
    assert pending[..|pending|] == pending;
  }

  // ------------------------------------------------------------------
  // Every run
  // ------------------------------------------------------------------

  datatype Op =
    | DoAdd(addr: Address, source: NetAddr, penalty: int, now: int, draw: nat)
    | DoGood(svc: Service, testBeforeEvict: bool, nTime: int)
    | DoAttempt(svc: Service, fCountFailure: bool, nTime: int)
    | DoConnected(svc: Service, nTime: int)
    | DoSetServices(svc: Service, nServices: set<nat>)
    | DoGetAddr(now: int, draws: nat -> nat)
    | DoResolve(now: int, pending: seq<int>)
    | DoSelect(id: int)
    | DoClear(hashes: Config)  // with the hashes of the key that is drawn

  /** What an entry is before it is filled in. */
  const NO_INFO: AddrInfo := AddrInfo(Address(Service(0, 0), 100000000, {}), 0, 0, 0, 0, 0, 0, false, -1)

  /** Looking up an entry that is not there puts an empty one there. */
  function LookedUp(s: State, id: int): State { if id in s.mapInfo then s else PutInfo(s, id, NO_INFO) }

  /** SelectTriedCollision drops a pending id that is no longer known, or looks up what is in its tried slot. */
  function AfterSelect(c: Config, s: State, id: int): State {
    if id !in s.collisions then s
    else if id !in s.mapInfo then s.(collisions := s.collisions - {id})
    else
      var u := TriedSlot(c, s.mapInfo[id].addr.service);
      LookedUp(s, if u in s.tried then s.tried[u] else -1)
  }

  /** Clear empties everything but the set of pending collisions. */
  function Cleared(s: State): State { Empty().(collisions := s.collisions) }

  /** The hashes in force after the operation. */
  function Rekeyed(c: Config, op: Op): Config { if op.DoClear? then op.hashes else c }

  ghost function Apply(c: Config, s: State, op: Op): State
    requires Indexed(c, s)
  {
    match op
    case DoAdd(addr, source, penalty, now, draw) => Add(c, s, addr, source, penalty, now, draw).0
    case DoGood(svc, test, nTime) => Good(c, s, svc, test, nTime)
    case DoAttempt(svc, fCount, nTime) => Attempt(s, svc, fCount, nTime)
    case DoConnected(svc, nTime) => Connected(s, svc, nTime)
    case DoSetServices(svc, nServices) => SetServices(s, svc, nServices)
    case DoGetAddr(now, draws) => Gather(s, now, draws, GetAddrLimit(s), 0, []).0
    case DoResolve(now, pending) => Resolve(c, s, now, pending)
    case DoSelect(id) => AfterSelect(c, s, id)
    case DoClear(_) => Cleared(s)
  }

  /** Selecting a pending id that is known and whose tried slot is empty. */
  predicate Blind(c: Config, s: State, op: Op) {
    && op.DoSelect? && op.id in s.collisions && op.id in s.mapInfo
    && TriedSlot(c, s.mapInfo[op.id].addr.service) !in s.tried
  }

  ghost predicate Keyed(op: Op) { op.DoClear? ==> Sized(op.hashes) }

  /** Every operation but a blind selection keeps the indexes in agreement; but for Clear, it takes nothing back. */
  lemma ApplyKeeps(c: Config, s: State, op: Op)
    requires Indexed(c, s) && Keyed(op)
    ensures Indexed(Rekeyed(c, op), Apply(c, s, op)) <==> !Blind(c, s, op)
    ensures !op.DoClear? && !Blind(c, s, op) ==> GoodSince(c, s, Apply(c, s, op))
    ensures Few(s) ==> Few(Apply(c, s, op))
  {
    hide Mid, Good, Attempt, Connected, SetServices, Gather, Add, AfterSelect, Resolve, CollisionsOk, Evolves, Few, Blind;
    NotBlind(c, s, op);
    match op
    case DoAdd(addr, source, penalty, now, draw) => AddEvolves(c, s, addr, source, penalty, now, draw);
    case DoGood(svc, test, nTime) => GoodEvolves(c, s, svc, test, nTime);
    case DoAttempt(svc, fCount, nTime) => AttemptApplied(c, s, svc, fCount, nTime);
    case DoConnected(svc, nTime) => ConnectedApplied(c, s, svc, nTime);
    case DoSetServices(svc, nServices) => SetServicesApplied(c, s, svc, nServices);
    case DoGetAddr(now, draws) => GatherApplied(c, s, now, draws);
    case DoResolve(now, pending) => ResolveKeeps(c, s, now, pending);
    case DoSelect(id) => SelectApplied(c, s, id);
    case DoClear(hashes) => ClearedIndexed(hashes, s);
  }

  lemma NotBlind(c: Config, s: State, op: Op)
    ensures !op.DoSelect? ==> !Blind(c, s, op)
    ensures CollisionsOk(c, s) ==> !Blind(c, s, op)
  {
  }

  /** A cleared manager is in order; what was pending has lost its meaning. */
  lemma ClearedIndexed(c: Config, s: State)
    requires Sized(c)
    ensures Indexed(c, Cleared(s)) && (CollisionsOk(c, Cleared(s)) <==> s.collisions == {}) && (Few(s) ==> Few(Cleared(s)))
  {
    assert TriedIds(map[]) == {};
    assert NewIds(map[], {}) == {};
    if CollisionsOk(c, Cleared(s)) {
      forall id ensures id !in s.collisions {
        assert id in s.collisions ==> Backed(c, Cleared(s), id);
      }
    }
  }

  lemma AttemptApplied(c: Config, s: State, svc: Service, fCountFailure: bool, nTime: int)
    requires Indexed(c, s)
    ensures GoodSince(c, s, Attempt(s, svc, fCountFailure, nTime))
  {
    hide Mid, Evolves, CollisionsOk;
    AttemptKeeps(c, s, svc, fCountFailure, nTime);
    TouchedEvolves(c, s, Attempt(s, svc, fCountFailure, nTime));
  }

  lemma ConnectedApplied(c: Config, s: State, svc: Service, nTime: int)
    requires Indexed(c, s)
    ensures GoodSince(c, s, Connected(s, svc, nTime))
  {
    hide Mid, Evolves, CollisionsOk;
    ConnectedKeeps(c, s, svc, nTime, {});
    TouchedEvolves(c, s, Connected(s, svc, nTime));
  }

  lemma SetServicesApplied(c: Config, s: State, svc: Service, nServices: set<nat>)
    requires Indexed(c, s)
    ensures GoodSince(c, s, SetServices(s, svc, nServices))
  {
    hide Mid, Evolves, CollisionsOk;
    ConnectedKeeps(c, s, svc, 0, nServices);
    TouchedEvolves(c, s, SetServices(s, svc, nServices));
  }

  lemma GatherApplied(c: Config, s: State, now: int, draws: nat -> nat)
    requires Indexed(c, s)
    ensures GoodSince(c, s, Gather(s, now, draws, GetAddrLimit(s), 0, []).0)
  {
    var s' := GatherKeeps(c, s, now, draws, GetAddrLimit(s), 0, []);
    GatherLeaves(s, now, draws, GetAddrLimit(s), 0, []);
    TouchedEvolves(c, s, s');
  }

  lemma SelectApplied(c: Config, s: State, id: int)
    requires Indexed(c, s)
    ensures Indexed(c, AfterSelect(c, s, id)) <==> !Blind(c, s, DoSelect(id))
    ensures !Blind(c, s, DoSelect(id)) ==> GoodSince(c, s, AfterSelect(c, s, id))
    ensures Few(s) ==> Few(AfterSelect(c, s, id))
  {
    hide Mid, Evolves, CollisionsOk, Few;
    var s' := AfterSelect(c, s, id);
    if id in s.collisions {
      SelectExactly(c, s, id);
      if Few(s) {
        FewFrame(s, s');
      }
      if id !in s.mapInfo {
        DroppedEvolves(c, s, s');
      } else if !Blind(c, s, DoSelect(id)) {
        HolderKnown(c, s, TriedSlot(c, s.mapInfo[id].addr.service));
        TouchedEvolves(c, s, s);
      }
    } else {
      TouchedEvolves(c, s, s);
    }
  }

  lemma HolderKnown(c: Config, s: State, u: Slot)
    requires Indexed(c, s) && u in s.tried
    ensures s.tried[u] in s.mapInfo
  {
  }

  lemma DroppedEvolves(c: Config, s: State, s': State)
    requires s' == s.(collisions := s'.collisions) && s'.collisions <= s.collisions
    ensures Evolves(s, s') && (CollisionsOk(c, s) ==> CollisionsOk(c, s'))
  {
    if CollisionsOk(c, s) {
      CollisionsFrame(c, s, s');
    }
  }

  /** Selecting a pending id spoils the indexes exactly when the id is known and its tried slot is empty. */
  lemma SelectExactly(c: Config, s: State, id: int)
    requires Indexed(c, s) && id in s.collisions
    ensures Indexed(c, AfterSelect(c, s, id)) <==> (id in s.mapInfo ==> TriedSlot(c, s.mapInfo[id].addr.service) in s.tried)
  {
    if id !in s.mapInfo {
      Unindexed(c, s, s.nLastGood, s.collisions - {id});
    } else if TriedSlot(c, s.mapInfo[id].addr.service) !in s.tried {
      assert -1 in AfterSelect(c, s, id).mapInfo;
    }
  }

  // ------------------------------------------------------------------
  // Runs
  // ------------------------------------------------------------------

  /** A manager and the hashes under its key. */
  datatype World = World(c: Config, s: State)

  ghost predicate Agrees(w: World) { Indexed(w.c, w.s) }

  ghost function Next(w: World, op: Op): World
    requires Agrees(w)
  {
    World(Rekeyed(w.c, op), Apply(w.c, w.s, op))
  }

  /** After the first `n` operations; a run ends where the indexes disagree. */
  ghost function Run(w: World, ops: seq<Op>, n: nat): World
    requires n <= |ops|
  {
    if n == 0 then w
    else
      var v := Run(w, ops, n - 1);
      if Agrees(v) then Next(v, ops[n - 1]) else v
  }

  ghost predicate AgreesAt(w: World, ops: seq<Op>, k: nat)
    requires k <= |ops|
  {
    Agrees(Run(w, ops, k))
  }

  ghost predicate BlindAt(w: World, ops: seq<Op>, k: nat)
    requires k < |ops|
  {
    var v := Run(w, ops, k); Blind(v.c, v.s, ops[k])
  }

  /** The indexes agree all along if and only if no selection in the run is blind. */
  lemma {:induction false} RunExactly(w: World, ops: seq<Op>, n: nat)
    requires Agrees(w) && n <= |ops| && forall op :: op in ops ==> Keyed(op)
    ensures (forall k :: 0 <= k <= n ==> AgreesAt(w, ops, k)) <==> (forall k :: 0 <= k < n ==> !BlindAt(w, ops, k))
  {
    hide Agrees, Next, Blind, Keyed;
    if n > 0 {
      RunExactly(w, ops, n - 1);
      var v := Run(w, ops, n - 1);
      assert AgreesAt(w, ops, n - 1) <==> Agrees(v);
      if Agrees(v) {
        NextExactly(v, ops[n - 1]);
        assert BlindAt(w, ops, n - 1) <==> !AgreesAt(w, ops, n);
      }
    }
  }

  lemma NextExactly(w: World, op: Op)
    requires Agrees(w) && Keyed(op)
    ensures Agrees(Next(w, op)) <==> !Blind(w.c, w.s, op)
  {
    ApplyKeeps(w.c, w.s, op);
  }

  ghost predicate Pending(w: World) { w.s.collisions != {} }

  /** ResolveCollisions takes up all that is pending. */
  ghost predicate TakesAll(w: World, op: Op) { op.DoResolve? && forall id :: id in w.s.collisions ==> id in op.pending }

  /** Since the last Clear with collisions pending, if there was one, ResolveCollisions has been called. */
  ghost predicate Meaningful(w: World, ops: seq<Op>, n: nat)
    requires n <= |ops|
  {
    n == 0
    || if ops[n - 1].DoClear? then !Pending(Run(w, ops, n - 1))
       else Meaningful(w, ops, n - 1) || TakesAll(Run(w, ops, n - 1), ops[n - 1])
  }

  ghost predicate InOrder(w: World) { Agrees(w) && CollisionsOk(w.c, w.s) }

  lemma NextMeaningful(w: World, op: Op)
    requires Agrees(w) && Keyed(op) && Few(w.s) && (InOrder(w) || !op.DoSelect?)
    ensures var v := Next(w, op);
            && Agrees(v) && Few(v.s)
            && ((if op.DoClear? then !Pending(w) else InOrder(w) || TakesAll(w, op)) ==> InOrder(v))
  {
    hide Mid, Good, Attempt, Connected, SetServices, Gather, Add, AfterSelect, Resolve, Few, Blind, CollisionsOk;
    ApplyKeeps(w.c, w.s, op);
    NotBlind(w.c, w.s, op);
    if op.DoClear? {
      ClearedIndexed(op.hashes, w.s);
    } else if TakesAll(w, op) {
      ResolveRepairs(w.c, w.s, op.now, op.pending);
    }
  }

  /** Whatever is done to an address manager, in whatever order and at whatever times, its indexes agree, as long as
      nothing is selected between a Clear with collisions pending and the next ResolveCollisions; at all other times
      never more than ten collisions are pending, each with an occupied slot. */
  lemma {:induction false} RunKeeps(w: World, ops: seq<Op>, n: nat)
    requires InOrder(w) && n <= |ops| && forall op :: op in ops ==> Keyed(op)
    requires forall k :: 0 <= k < n && ops[k].DoSelect? ==> Meaningful(w, ops, k)
    ensures Agrees(Run(w, ops, n)) && Few(Run(w, ops, n).s) && (Meaningful(w, ops, n) ==> InOrder(Run(w, ops, n)))
  {
    hide Agrees, Next, Keyed, TakesAll, Pending;
    if n > 0 {
      RunKeeps(w, ops, n - 1);
      NextMeaningful(Run(w, ops, n - 1), ops[n - 1]);
    }
  }

  lemma EmptyIndexed(c: Config)
    requires Sized(c)
    ensures InOrder(World(c, Empty()))
  {
    ClearedIndexed(c, Empty());
  }

  /** Runs in which Clear finds nothing pending keep it meaningful throughout. */
  lemma {:induction false} QuietClears(w: World, ops: seq<Op>, n: nat)
    requires n <= |ops| && forall k :: 0 <= k < n && ops[k].DoClear? ==> !Pending(Run(w, ops, k))
    ensures Meaningful(w, ops, n)
  {
    hide Pending, Run;
    if n > 0 {
      QuietClears(w, ops, n - 1);
    }
  }

  /** Where what is pending is meaningful, SelectTriedCollision does not look up an empty slot: the slot of a pending id that is
      still known holds a known, tried entry other than itself unless it is tried by now. */
  lemma SelectSafe(c: Config, ops: seq<Op>, n: nat, id: int)
    requires Sized(c) && n <= |ops| && (forall op :: op in ops ==> Keyed(op))
    requires forall k :: 0 <= k < n && ops[k].DoSelect? ==> Meaningful(World(c, Empty()), ops, k)
    requires Meaningful(World(c, Empty()), ops, n)
    requires var s := Run(World(c, Empty()), ops, n).s; id in s.collisions && id in s.mapInfo
    ensures var w := Run(World(c, Empty()), ops, n);
            var s, u := w.s, TriedSlot(w.c, w.s.mapInfo[id].addr.service);
            && u in s.tried && s.tried[u] in s.mapInfo && s.mapInfo[s.tried[u]].fInTried
            && (s.tried[u] == id <==> s.mapInfo[id].fInTried)
  {
    hide Meaningful, Run, Keyed;
    EmptyIndexed(c);
    RunKeeps(World(c, Empty()), ops, n);
  }
}
