/**
 The parallel verification queue: one master hands batches of checks to any
 number of workers under one mutex and two condition variables.

 `Shared` is what the mutex protects, and `CheckQueue` is the object whose
 methods are the critical sections, in place.  `System` puts the threads
 around it: a step is one critical section, or one check run outside the lock,
 so a sequence of steps is one interleaving of the threads.  Thread 0 is the
 master, that is, whoever holds the control mutex.
 */
module CheckQueueModel {
  import opened Basics
  import opened Powers

  // ------------------------------------------------------------------
  // The protected state and the critical sections as functions of it
  // ------------------------------------------------------------------

  datatype Shared<T> = Shared(
    queue: seq<T>,
    nIdle: int,
    nTotal: int,
    allOk: bool,
    nTodo: int,
    nBatchSize: nat)

  /** How an attempt to get work ends. */
  datatype Outcome<T> =
    | Return(verdict: bool)
    | Sleep
    | Take(batch: seq<T>, ok: bool)

  /** The checks of the last `n` places, from the back of the stack. */
  function PoppedBatch<T>(queue: seq<T>, n: nat): (batch: seq<T>)
    requires n <= |queue|
  {
    seq(n, i requires 0 <= i < n => queue[|queue| - 1 - i])
  }

  /** The number of work units to process now. */
  function BatchCount<T>(sh: Shared<T>): (n: nat)
    requires sh.queue != [] && sh.nIdle >= 0 && sh.nTotal >= 0
    ensures 1 <= n <= |sh.queue|
    ensures n > 1 ==> n <= sh.nBatchSize && n * (sh.nTotal + sh.nIdle + 1) <= |sh.queue|
  {
    var workers := sh.nTotal + sh.nIdle + 1;
    var n := Max(1, Min(sh.nBatchSize, |sh.queue| / workers));
    ShareFits(n, |sh.queue|, workers);
    n
  }

  lemma ShareFits(n: int, queued: nat, workers: int)
    requires workers > 0 && n <= Max(1, queued / workers)
    ensures n > 1 ==> n * workers <= queued
    ensures queued / workers <= queued
  {
    QuotientFits(queued, workers);
    if n > 1 {
      MulLe(n, queued / workers, workers);
    }
  }

  lemma QuotientFits(queued: nat, workers: int)
    requires workers > 0
    ensures 0 <= queued / workers <= queued && queued / workers * workers <= queued
  {
    var q, m := DivMod(queued, workers);
    MulLe(1, workers, q);
  }

  /** The body of the `while (queue.empty())` loop and what follows it, up to the release of the lock. */
  function Attempt<T>(sh: Shared<T>, isMaster: bool): (Shared<T>, Outcome<T>)
    requires sh.nIdle >= 0 && sh.nTotal >= 0
  {
    if sh.queue == [] then
      if isMaster && sh.nTodo == 0 then
        (sh.(nTotal := sh.nTotal - 1, allOk := true), Return(sh.allOk))
      else
        (sh.(nIdle := sh.nIdle + 1), Sleep)
    else
      var n := BatchCount(sh);
      (sh.(queue := sh.queue[..|sh.queue| - n]), Take(PoppedBatch(sh.queue, n), sh.allOk))
  }

  /** The clean-up of the previous loop run, on taking the lock. */
  function Account<T>(sh: Shared<T>, nNow: nat, ok: bool): Shared<T> {
    if nNow != 0 then sh.(allOk := sh.allOk && ok, nTodo := sh.nTodo - nNow)
    else sh.(nTotal := sh.nTotal + 1)
  }

  function Enqueue<T>(sh: Shared<T>, checks: seq<T>): Shared<T> {
    sh.(queue := sh.queue + checks, nTodo := sh.nTodo + |checks|)
  }

  /** The queue object; each method is one stretch of code run under the mutex. */
  class CheckQueue<T> {
    var queue: seq<T>
    var nIdle: int
    var nTotal: int
    var allOk: bool
    var nTodo: int
    const nBatchSize: nat

    ghost function State(): Shared<T>
      reads this
    {
      Shared(queue, nIdle, nTotal, allOk, nTodo, nBatchSize)
    }

    constructor (nBatchSizeIn: nat)
      ensures State() == Shared([], 0, 0, true, 0, nBatchSizeIn)
    {
      queue, nIdle, nTotal, allOk, nTodo := [], 0, 0, true, 0;
      nBatchSize := nBatchSizeIn;
    }

    /** `nNotify` says how many workers are notified: none, one, or all (2). */
    method Add(checks: seq<T>) returns (nNotify: nat)
      modifies this
      ensures State() == Enqueue(old(State()), checks)
      ensures nNotify == Min(|checks|, 2)
    {
      for i := 0 to |checks|
        invariant queue == old(queue) + checks[..i]
        invariant unchanged(`nIdle) && unchanged(`nTotal) && unchanged(`allOk) && unchanged(`nTodo)
      {
        queue := queue + [checks[i]];
      }
      nTodo := nTodo + |checks|;
      if |checks| == 1 {
        nNotify := 1;
      } else if |checks| > 1 {
        nNotify := 2;
      } else {
        nNotify := 0;
      }
    }

    /** Entry to the critical section; `notifyMaster` says that the master is told it can exit. */
    method CleanUp(isMaster: bool, nNow: nat, ok: bool) returns (notifyMaster: bool)
      modifies this
      ensures State() == Account(old(State()), nNow, ok)
      ensures notifyMaster <==> nNow != 0 && nTodo == 0 && !isMaster
    {
      notifyMaster := false;
      if nNow != 0 {
        allOk := allOk && ok;
        nTodo := nTodo - nNow;
        if nTodo == 0 && !isMaster {
          notifyMaster := true;
        }
      } else {
        nTotal := nTotal + 1;
      }
    }

    /** Leaves a wait on a condition variable. */
    method WakeUp()
      modifies this
      ensures State() == old(State()).(nIdle := old(nIdle) - 1)
    {
      nIdle := nIdle - 1;
    }

    method GetWork(isMaster: bool) returns (outcome: Outcome<T>)
      requires nIdle >= 0 && nTotal >= 0
      modifies this
      ensures (State(), outcome) == Attempt(old(State()), isMaster)
    {
      if queue == [] {
        if isMaster && nTodo == 0 {
          nTotal := nTotal - 1;
          var ret := allOk;
          allOk := true;
          return Return(ret);
        }
        nIdle := nIdle + 1;
        return Sleep;
      }
      ghost var n := BatchCount(State());
      var nNow := Max(1, Min(nBatchSize, |queue| / (nTotal + nIdle + 1)));
      var vChecks := [];
      for i := 0 to nNow
        invariant nNow == n <= |old(queue)|
        invariant queue == old(queue)[..|old(queue)| - i]
        invariant vChecks == PoppedBatch(old(queue), i)
        invariant unchanged(`nIdle) && unchanged(`nTotal) && unchanged(`allOk) && unchanged(`nTodo)
      {
        vChecks := vChecks + [queue[|queue| - 1]];
        queue := queue[..|queue| - 1];
      }
      outcome := Take(vChecks, allOk);
    }
  }

  // ------------------------------------------------------------------
  // The threads
  // ------------------------------------------------------------------

  /** Where a thread is.  `Busy` covers the unlocked part of the loop: `rest` is what is left of
      the batch of `nNow` checks, `ok` the local fOk. */
  datatype Phase<T> =
    | Outside
    | Entering
    | Busy(rest: seq<T>, nNow: nat, ok: bool)
    | Waiting(notified: bool)

  datatype Event<T> =
    | Added(checks: seq<T>)
    | Ran(check: T, result: bool)
    | Skipped(skippedCheck: T)
    | Returned(verdict: bool)

  /** What has happened since Wait last returned. */
  datatype Round<T> = Round(added: multiset<T>, ran: multiset<T>, skipped: multiset<T>, failed: bool)

  const MASTER: nat := 0

  function EmptyRound<T>(): Round<T> { Round(multiset{}, multiset{}, multiset{}, false) }

  function Extend<T>(r: Round<T>, e: Event<T>): Round<T> {
    match e
    case Added(checks) => r.(added := r.added + multiset(checks))
    case Ran(c, result) => r.(ran := r.ran + multiset{c}, failed := r.failed || !result)
    case Skipped(c) => r.(skipped := r.skipped + multiset{c})
    case Returned(_) => EmptyRound()
  }

  /** The round that a log of events ends in. */
  function RoundOf<T>(log: seq<Event<T>>): Round<T> {
    if log == [] then EmptyRound() else Extend(RoundOf(log[..|log| - 1]), log[|log| - 1])
  }

  /** `log` is every event so far; `round` keeps RoundOf(log) at hand. */
  datatype System<T> = System(shared: Shared<T>, threads: seq<Phase<T>>, round: Round<T>, log: seq<Event<T>>) {
    function Record(e: Event<T>): System<T> { this.(round := Extend(round, e), log := log + [e]) }
  }

  datatype Label =
    | Call(t: nat)               // thread t calls Loop
    | Push(count: nat, pick: nat)// the master adds `count` checks; `pick` is the worker that notify_one wakes
    | Enter(t: nat)              // thread t takes the lock for the first time
    | Finish(t: nat)             // thread t takes the lock with a finished batch
    | Wake(t: nat)               // thread t leaves its wait, notified or spuriously
    | Run(t: nat, result: bool)  // thread t handles the next check of its batch

  predicate SleepingWorker<T>(threads: seq<Phase<T>>, i: nat) {
    MASTER < i < |threads| && threads[i] == Waiting(false)
  }

  function NotifyOne<T>(threads: seq<Phase<T>>, pick: nat): (r: seq<Phase<T>>) {
    if SleepingWorker(threads, pick) then threads[pick := Waiting(true)] else threads
  }

  function NotifyAll<T>(threads: seq<Phase<T>>): (r: seq<Phase<T>>) {
    seq(|threads|, i requires 0 <= i < |threads| =>
      if SleepingWorker(threads, i) then Waiting(true) else threads[i])
  }

  function NotifyMaster<T>(threads: seq<Phase<T>>): (r: seq<Phase<T>>) {
    if |threads| > 0 && threads[MASTER].Waiting? then threads[MASTER := Waiting(true)] else threads
  }

  /** `checks` is what the master passes when `l` is a Push. */
  ghost predicate Enabled<T>(s: System<T>, l: Label, checks: seq<T>) {
    && |s.threads| > 0
    && match l
       case Call(t) => t < |s.threads| && s.threads[t] == Outside
       case Push(count, pick) =>
         && s.threads[MASTER] == Outside
         && count == |checks|
         && ((exists i :: SleepingWorker(s.threads, i)) ==> SleepingWorker(s.threads, pick))
       case Enter(t) => t < |s.threads| && s.threads[t] == Entering
       case Finish(t) => t < |s.threads| && s.threads[t].Busy? && s.threads[t].rest == []
       case Wake(t) => t < |s.threads| && s.threads[t].Waiting?
       case Run(t, _) => t < |s.threads| && s.threads[t].Busy? && s.threads[t].rest != []
  }

  /** Thread `t`, holding the lock in state `s`, looks for work and releases the lock. */
  function LockedPart<T>(s: System<T>, t: nat): System<T>
    requires t < |s.threads| && s.shared.nIdle >= 0 && s.shared.nTotal >= 0
  {
    var (sh, outcome) := Attempt(s.shared, t == MASTER);
    match outcome
    case Return(v) => s.(shared := sh, threads := s.threads[t := Outside]).Record(Returned(v))
    case Sleep => s.(shared := sh, threads := s.threads[t := Waiting(false)])
    case Take(batch, ok) => s.(shared := sh, threads := s.threads[t := Busy(batch, |batch|, ok)])
  }

  /** The state of `s` just after the lock is taken and the previous run is cleaned up. */
  function Locked<T>(s: System<T>, l: Label): System<T>
    requires (l.Enter? || l.Finish? || l.Wake?) && l.t < |s.threads|
    requires l.Finish? ==> s.threads[l.t].Busy?
  {
    match l
    case Enter(t) => s.(shared := Account(s.shared, 0, true))
    case Wake(t) => s.(shared := s.shared.(nIdle := s.shared.nIdle - 1))
    case Finish(t) =>
      var me := s.threads[t];
      var sh := Account(s.shared, me.nNow, me.ok);
      s.(shared := sh, threads := if sh.nTodo == 0 && t != MASTER then NotifyMaster(s.threads) else s.threads)
  }

  /** Thread `t` runs the next check of its batch if nothing failed before, else drops it. */
  function AfterRun<T>(s: System<T>, t: nat, result: bool): System<T>
    requires t < |s.threads| && s.threads[t].Busy? && s.threads[t].rest != []
  {
    var me := s.threads[t];
    if me.ok then
      s.(threads := s.threads[t := Busy(me.rest[1..], me.nNow, result)]).Record(Ran(me.rest[0], result))
    else
      s.(threads := s.threads[t := Busy(me.rest[1..], me.nNow, false)]).Record(Skipped(me.rest[0]))
  }

  ghost predicate Step<T>(s: System<T>, l: Label, checks: seq<T>, s': System<T>) {
    && Enabled(s, l, checks)
    && match l
       case Call(t) => s' == s.(threads := s.threads[t := Entering])
       case Push(count, pick) =>
         var threads :=
           if count == 1 then NotifyOne(s.threads, pick) else if count > 1 then NotifyAll(s.threads) else s.threads;
         s' == s.(shared := Enqueue(s.shared, checks), threads := threads).Record(Added(checks))
       case Run(t, result) => s' == AfterRun(s, t, result)
       case _ =>
         var locked := Locked(s, l);
         && locked.shared.nIdle >= 0 && locked.shared.nTotal >= 0
         && s' == LockedPart(locked, l.t)
  }

  ghost predicate Init<T>(s: System<T>) {
    && s.shared == Shared([], 0, 0, true, 0, s.shared.nBatchSize)
    && |s.threads| > 0
    && (forall i :: 0 <= i < |s.threads| ==> s.threads[i] == Outside)
    && s.round == EmptyRound() && s.log == []
  }

  // ------------------------------------------------------------------
  // What a round is, read off the log
  // ------------------------------------------------------------------

  /** The promise of Wait: a true verdict says that the checks added in the round are exactly the
      checks that ran, each once, and that none returned false; a false verdict says that one did. */
  ghost predicate VerdictRight<T>(round: Round<T>, verdict: bool) {
    if verdict then round.ran == round.added && !round.failed else round.failed
  }

  /** At every moment nothing has run that was not added in the round, nor more often than added;
      and every verdict was right. */
  ghost predicate GoodLog<T>(log: seq<Event<T>>) {
    forall k :: 0 <= k <= |log| ==> GoodPrefix(log, k)
  }

  ghost predicate GoodPrefix<T>(log: seq<Event<T>>, k: nat)
    requires k <= |log|
  {
    var r := RoundOf(log[..k]);
    && r.ran <= r.added
    && (k < |log| && log[k].Returned? ==> VerdictRight(r, log[k].verdict))
  }

  // ------------------------------------------------------------------
  // The invariant
  // ------------------------------------------------------------------

  /** The sum of `w` over the first `n` threads. */
  function Sum<T(!new)>(threads: seq<Phase<T>>, w: Phase<T> -> int, n: nat): int
    requires n <= |threads|
  {
    if n == 0 then 0 else Sum(threads, w, n - 1) + w(threads[n - 1])
  }

  function Total<T(!new)>(threads: seq<Phase<T>>, w: Phase<T> -> int): int { Sum(threads, w, |threads|) }

  function NowOf<T(!new)>(p: Phase<T>): int { if p.Busy? then p.nNow else 0 }

  function IdleOf<T(!new)>(p: Phase<T>): int { if p.Waiting? then 1 else 0 }

  function InsideOf<T(!new)>(p: Phase<T>): int { if p.Busy? || p.Waiting? then 1 else 0 }

  /** How many copies of check `c` a thread still has to handle. */
  ghost function HeldOf<T(!new)>(c: T): Phase<T> -> int { (p: Phase<T>) => if p.Busy? then multiset(p.rest)[c] else 0 }

  /** The counters: `nTodo` is the queued checks plus every batch not yet accounted for. */
  ghost predicate Counted<T(!new)>(s: System<T>) {
    && s.shared.nTodo == |s.shared.queue| + Total(s.threads, NowOf)
    && s.shared.nIdle == Total(s.threads, IdleOf)
    && s.shared.nTotal == Total(s.threads, InsideOf)
  }

  /** No copy of `c` added in the round is lost or duplicated. */
  ghost predicate ConservedAt<T(!new)>(s: System<T>, c: T) {
    s.round.added[c] == multiset(s.shared.queue)[c] + Total(s.threads, HeldOf(c)) + s.round.ran[c] + s.round.skipped[c]
  }

  ghost predicate Conserved<T(!new)>(s: System<T>) {
    forall c: T :: ConservedAt(s, c)
  }

  ghost predicate HoldsFailure<T>(p: Phase<T>) { p.Busy? && !p.ok }

  /** A failure of the round is recorded in fAllOk or in some thread's fOk, and only then is anything skipped.
      The lock holder's own fOk has been merged already: `except` is its number, or |threads|. */
  ghost predicate FailuresKnown<T>(s: System<T>, except: nat) {
    && (s.round.skipped != multiset{} ==> s.round.failed)
    && (!s.shared.allOk ==> s.round.failed)
    && (forall i :: 0 <= i < |s.threads| && HoldsFailure(s.threads[i]) ==> s.round.failed)
    && (s.round.failed ==>
         !s.shared.allOk || exists i :: 0 <= i < |s.threads| && i != except && HoldsFailure(s.threads[i]))
  }

  /** A master that waits un-notified has outstanding work, all of it in the workers' hands. */
  ghost predicate MasterSafe<T>(s: System<T>) {
    && |s.threads| > 0
    && (s.threads[MASTER].Waiting? ==> s.shared.queue == [])
    && (s.threads[MASTER] == Waiting(false) ==> s.shared.nTodo > 0)
  }

  ghost predicate BatchesOk<T>(threads: seq<Phase<T>>) {
    forall i :: 0 <= i < |threads| && threads[i].Busy? ==> |threads[i].rest| <= threads[i].nNow && threads[i].nNow > 0
  }

  ghost predicate Logged<T>(s: System<T>) {
    s.round == RoundOf(s.log) && GoodLog(s.log)
  }

  ghost predicate Inv<T(!new)>(s: System<T>) {
    && Counted(s)
    && Conserved(s)
    && FailuresKnown(s, |s.threads|)
    && MasterSafe(s)
    && BatchesOk(s.threads)
    && Logged(s)
  }

  // ------------------------------------------------------------------
  // Sums over the threads
  // ------------------------------------------------------------------

  lemma {:induction false} SumUpdate<T(!new)>(threads: seq<Phase<T>>, w: Phase<T> -> int, t: nat, p: Phase<T>, n: nat)
    requires t < |threads| && n <= |threads|
    ensures Sum(threads[t := p], w, n) == Sum(threads, w, n) + (if t < n then w(p) - w(threads[t]) else 0)
  {
    if n > 0 {
      SumUpdate(threads, w, t, p, n - 1);
    }
  }

  lemma {:induction false} SumSame<T(!new)>(a: seq<Phase<T>>, b: seq<Phase<T>>, w: Phase<T> -> int, n: nat)
    requires n <= |a| == |b|
    requires forall i :: 0 <= i < n ==> w(a[i]) == w(b[i])
    ensures Sum(a, w, n) == Sum(b, w, n)
  {
    if n > 0 {
      SumSame(a, b, w, n - 1);
    }
  }

  lemma {:induction false} SumBounds<T(!new)>(a: seq<Phase<T>>, w: Phase<T> -> int, n: nat)
    requires n <= |a| && forall i :: 0 <= i < n ==> w(a[i]) >= 0
    ensures Sum(a, w, n) >= 0
    ensures forall i :: 0 <= i < n ==> w(a[i]) <= Sum(a, w, n)
  {
    if n > 0 {
      SumBounds(a, w, n - 1);
    }
  }

  lemma {:induction false} SumPositive<T(!new)>(a: seq<Phase<T>>, w: Phase<T> -> int, n: nat) returns (i: nat)
    requires n <= |a| && Sum(a, w, n) > 0
    ensures i < n && w(a[i]) > 0
  {
    i := n - 1;
    if w(a[i]) <= 0 {
      i := SumPositive(a, w, n - 1);
    }
  }

  /** Replacing one thread moves every count by that thread's share. */
  lemma ThreadUpdate<T(!new)>(threads: seq<Phase<T>>, t: nat, p: Phase<T>)
    requires t < |threads|
    ensures Total(threads[t := p], NowOf) == Total(threads, NowOf) - NowOf(threads[t]) + NowOf(p)
    ensures Total(threads[t := p], IdleOf) == Total(threads, IdleOf) - IdleOf(threads[t]) + IdleOf(p)
    ensures Total(threads[t := p], InsideOf) == Total(threads, InsideOf) - InsideOf(threads[t]) + InsideOf(p)
  {
    SumUpdate(threads, NowOf, t, p, |threads|);
    SumUpdate(threads, IdleOf, t, p, |threads|);
    SumUpdate(threads, InsideOf, t, p, |threads|);
  }

  /** Replacing one thread conserves `c` if its copies move between its batch, the queue and the round. */
  lemma ConservedUpdate<T(!new)>(s: System<T>, s': System<T>, t: nat, c: T)
    requires ConservedAt(s, c) && t < |s.threads| == |s'.threads| && s'.threads == s.threads[t := s'.threads[t]]
    requires s'.round.added == s.round.added
    requires multiset(s'.shared.queue)[c] + HeldOf(c)(s'.threads[t]) + s'.round.ran[c] + s'.round.skipped[c]
          == multiset(s.shared.queue)[c] + HeldOf(c)(s.threads[t]) + s.round.ran[c] + s.round.skipped[c]
    ensures ConservedAt(s', c)
  {
    SumUpdate(s.threads, HeldOf(c), t, s'.threads[t], |s.threads|);
  }

  /** Threads that differ only in the notified flag of waiters. */
  ghost predicate SameButNotified<T>(a: seq<Phase<T>>, b: seq<Phase<T>>) {
    && |a| == |b|
    && forall i :: 0 <= i < |a| ==> a[i] == b[i] || (a[i].Waiting? && b[i] == Waiting(true))
  }

  lemma NotifyKeeps<T(!new)>(a: seq<Phase<T>>, b: seq<Phase<T>>)
    requires SameButNotified(a, b)
    ensures Total(b, NowOf) == Total(a, NowOf)
    ensures Total(b, IdleOf) == Total(a, IdleOf)
    ensures Total(b, InsideOf) == Total(a, InsideOf)
    ensures forall c: T :: Total(b, HeldOf(c)) == Total(a, HeldOf(c))
  {
    SumSame(b, a, NowOf, |a|);
    SumSame(b, a, IdleOf, |a|);
    SumSame(b, a, InsideOf, |a|);
    forall c: T ensures Total(b, HeldOf(c)) == Total(a, HeldOf(c)) {
      SumSame(b, a, HeldOf(c), |a|);
    }
  }

  lemma CountersNonNegative<T(!new)>(threads: seq<Phase<T>>)
    ensures forall i :: 0 <= i < |threads| ==> 0 <= NowOf(threads[i]) <= Total(threads, NowOf)
    ensures forall i :: 0 <= i < |threads| ==> 0 <= IdleOf(threads[i]) <= Total(threads, IdleOf)
    ensures forall i :: 0 <= i < |threads| ==> 0 <= InsideOf(threads[i]) <= Total(threads, InsideOf)
    ensures Total(threads, NowOf) >= 0 && Total(threads, IdleOf) >= 0 && Total(threads, InsideOf) >= 0
  {
    SumBounds(threads, NowOf, |threads|);
    SumBounds(threads, IdleOf, |threads|);
    SumBounds(threads, InsideOf, |threads|);
  }

  // ------------------------------------------------------------------
  // Every step keeps the invariant
  // ------------------------------------------------------------------

  /** Recording one more event keeps the log good if the new round is consistent and the verdict right. */
  lemma LogGrows<T>(s: System<T>, e: Event<T>)
    requires Logged(s)
    requires e.Returned? ==> VerdictRight(s.round, e.verdict)
    requires Extend(s.round, e).ran <= Extend(s.round, e).added
    ensures Logged(s.Record(e))
  {
    hide VerdictRight;
    var log, log' := s.log, s.log + [e];
    assert log'[..|log|] == log;
    forall k | 0 <= k <= |log'| ensures GoodPrefix(log', k) {
      if k <= |log| {
        assert log'[..k] == log[..k];
        assert GoodPrefix(log, k);
        if k == |log| {
          assert log[..k] == log;
        }
      } else {
        assert log'[..k] == log';
      }
    }
  }

  /** A conserved round has run nothing that was not added to it. */
  lemma RanAreAdded<T(!new)>(s: System<T>)
    requires Conserved(s)
    ensures s.round.ran <= s.round.added
  {
    forall c: T ensures s.round.ran[c] <= s.round.added[c] {
      assert ConservedAt(s, c);
      SumBounds(s.threads, HeldOf(c), |s.threads|);
    }
  }

  lemma InitInv<T(!new)>(s: System<T>)
    requires Init(s)
    ensures Inv(s)
  {
    SumZero(s.threads, NowOf, |s.threads|);
    SumZero(s.threads, IdleOf, |s.threads|);
    SumZero(s.threads, InsideOf, |s.threads|);
    forall c: T ensures ConservedAt(s, c) {
      SumZero(s.threads, HeldOf(c), |s.threads|);
    }
    assert GoodPrefix(s.log, 0);
  }

  lemma {:induction false} SumZero<T(!new)>(a: seq<Phase<T>>, w: Phase<T> -> int, n: nat)
    requires n <= |a| && forall i :: 0 <= i < n ==> w(a[i]) == 0
    ensures Sum(a, w, n) == 0
  {
    if n > 0 {
      SumZero(a, w, n - 1);
    }
  }

  lemma CallKeeps<T(!new)>(s: System<T>, t: nat)
    requires Inv(s) && t < |s.threads| && s.threads[t] == Outside
    ensures Inv(s.(threads := s.threads[t := Entering]))
  {
    var s' := s.(threads := s.threads[t := Entering]);
    ThreadUpdate(s.threads, t, Entering);
    forall c: T ensures ConservedAt(s', c) {
      assert ConservedAt(s, c);
      ConservedUpdate(s, s', t, c);
    }
    forall i | 0 <= i < |s.threads| ensures HoldsFailure(s'.threads[i]) <==> HoldsFailure(s.threads[i]) { }
  }

  lemma PushKeeps<T(!new)>(s: System<T>, checks: seq<T>, threads: seq<Phase<T>>)
    requires Inv(s) && SameButNotified(s.threads, threads) && s.threads[MASTER] == Outside
    ensures Inv(s.(shared := Enqueue(s.shared, checks), threads := threads).Record(Added(checks)))
  {
    var s' := s.(shared := Enqueue(s.shared, checks), threads := threads).Record(Added(checks));
    NotifyKeeps(s.threads, threads);
    forall c: T ensures ConservedAt(s', c) {
      assert ConservedAt(s, c);
      assert multiset(s.shared.queue + checks) == multiset(s.shared.queue) + multiset(checks);
    }
    RanAreAdded(s');
    LogGrows(s, Added(checks));
    forall i | 0 <= i < |s.threads| ensures HoldsFailure(s'.threads[i]) <==> HoldsFailure(s.threads[i]) { }
  }

  lemma RunKeeps<T(!new)>(s: System<T>, t: nat, result: bool)
    requires Inv(s) && t < |s.threads| && s.threads[t].Busy? && s.threads[t].rest != []
    ensures Inv(AfterRun(s, t, result))
  {
    hide ConservedAt, Conserved, FailuresKnown, GoodLog, RoundOf;
    var me, s' := s.threads[t], AfterRun(s, t, result);
    ThreadUpdate(s.threads, t, s'.threads[t]);
    RunConserves(s, t, result);
    RanAreAdded(s');
    LogGrows(s, if me.ok then Ran(me.rest[0], result) else Skipped(me.rest[0]));
    RunFailures(s, t, result);
  }

  lemma RunConserves<T(!new)>(s: System<T>, t: nat, result: bool)
    requires Conserved(s) && t < |s.threads| && s.threads[t].Busy? && s.threads[t].rest != []
    ensures Conserved(AfterRun(s, t, result))
  {
    var me, s' := s.threads[t], AfterRun(s, t, result);
    assert me.rest == [me.rest[0]] + me.rest[1..];
    forall c: T ensures ConservedAt(s', c) {
      assert ConservedAt(s, c);
      ConservedUpdate(s, s', t, c);
    }
  }

  lemma RunFailures<T>(s: System<T>, t: nat, result: bool)
    requires t < |s.threads| && s.threads[t].Busy? && s.threads[t].rest != []
    requires FailuresKnown(s, |s.threads|)
    ensures FailuresKnown(AfterRun(s, t, result), |s.threads|)
  {
    var me, s' := s.threads[t], AfterRun(s, t, result);
    if !me.ok {
      assert HoldsFailure(s.threads[t]);
    }
    if !s'.threads[t].ok {
      assert HoldsFailure(s'.threads[t]);
    }
    forall i | 0 <= i < |s.threads| && i != t ensures s'.threads[i] == s.threads[i] { }
  }

  /** The counters while thread `t` holds the lock: its own phase no longer counts. */
  ghost predicate LockedCounts<T(!new)>(s: System<T>, t: nat) {
    && t < |s.threads|
    && s.shared.nTodo == |s.shared.queue| + Total(s.threads, NowOf) - NowOf(s.threads[t])
    && s.shared.nIdle == Total(s.threads, IdleOf) - IdleOf(s.threads[t])
    && s.shared.nTotal == Total(s.threads, InsideOf) - InsideOf(s.threads[t]) + 1
  }

  /** The invariant while thread `t` holds the lock. */
  ghost predicate LockedInv<T(!new)>(s: System<T>, t: nat) {
    && LockedCounts(s, t)
    && (s.threads[t].Busy? ==> s.threads[t].rest == [])
    && Conserved(s)
    && FailuresKnown(s, t)
    && (t != MASTER ==> MasterSafe(s))
    && BatchesOk(s.threads)
    && Logged(s)
  }

  lemma LockTaken<T(!new)>(s: System<T>, l: Label)
    requires Inv(s) && (l.Enter? || l.Finish? || l.Wake?) && Enabled(s, l, [])
    ensures LockedInv(Locked(s, l), l.t)
    ensures Locked(s, l).shared.nIdle >= 0 && Locked(s, l).shared.nTotal >= 1
    ensures l.Finish? ==> s.shared.nTodo >= s.threads[l.t].nNow
  {
    var k := Locked(s, l);
    CountersNonNegative(s.threads);
    NotifyKeeps(s.threads, k.threads);
    forall c: T ensures ConservedAt(k, c) {
      assert ConservedAt(s, c);
    }
    LockTakenFailures(s, l);
  }

  lemma LockTakenFailures<T>(s: System<T>, l: Label)
    requires FailuresKnown(s, |s.threads|) && BatchesOk(s.threads)
    requires (l.Enter? || l.Finish? || l.Wake?) && Enabled(s, l, [])
    ensures FailuresKnown(Locked(s, l), l.t)
  {
    var t, k := l.t, Locked(s, l);
    forall i | 0 <= i < |s.threads| ensures HoldsFailure(s.threads[i]) <==> HoldsFailure(k.threads[i]) { }
    if l.Finish? && !s.threads[t].ok {
      assert HoldsFailure(s.threads[t]);
    }
  }

  /** With nothing queued and nothing outstanding, no thread but the lock holder has a batch. */
  lemma NothingOutstanding<T(!new)>(s: System<T>, t: nat)
    requires LockedCounts(s, t) && BatchesOk(s.threads) && s.shared.queue == [] && s.shared.nTodo == 0
    ensures forall i :: 0 <= i < |s.threads| && i != t ==> !s.threads[i].Busy?
  {
    var others := s.threads[t := Outside];
    ThreadUpdate(s.threads, t, Outside);
    CountersNonNegative(others);
    forall i | 0 <= i < |s.threads| && i != t
      ensures !s.threads[i].Busy?
    {
      assert others[i] == s.threads[i];
      assert NowOf(others[i]) <= Total(others, NowOf);
    }
  }

  /** The verdict Wait returns is right for the round that it ends. */
  lemma VerdictAtReturn<T(!new)>(s: System<T>, t: nat)
    requires LockedInv(s, t) && s.shared.queue == [] && s.shared.nTodo == 0
    ensures VerdictRight(s.round, s.shared.allOk)
  {
    NothingOutstanding(s, t);
    if s.shared.allOk {
      forall c: T ensures s.round.ran[c] == s.round.added[c] {
        assert ConservedAt(s, c);
        SumZero(s.threads, HeldOf(c), |s.threads|);
      }
      assert s.round.ran == s.round.added;
    }
  }

  lemma PoppedSplit<T>(queue: seq<T>, n: nat)
    requires n <= |queue|
    ensures multiset(queue) == multiset(queue[..|queue| - n]) + multiset(PoppedBatch(queue, n))
  {
    if n == 0 {
      assert queue[..|queue|] == queue;
    } else {
      PoppedSplit(queue, n - 1);
      var k := |queue| - n;
      assert queue[..k + 1] == queue[..k] + [queue[k]];
      assert PoppedBatch(queue, n) == PoppedBatch(queue, n - 1) + [queue[k]];
    }
  }

  lemma ReleaseReturn<T(!new)>(s: System<T>, t: nat)
    requires LockedInv(s, t) && t == MASTER && s.shared.queue == [] && s.shared.nTodo == 0
    requires s.shared.nIdle >= 0 && s.shared.nTotal >= 0
    ensures Inv(LockedPart(s, t))
  {
    var s' := LockedPart(s, t);
    NothingOutstanding(s, t);
    VerdictAtReturn(s, t);
    ThreadUpdate(s.threads, t, Outside);
    forall c: T ensures ConservedAt(s', c) {
      SumZero(s'.threads, HeldOf(c), |s'.threads|);
    }
    LogGrows(s, Returned(s.shared.allOk));
  }

  lemma ReleaseSleep<T(!new)>(s: System<T>, t: nat)
    requires LockedInv(s, t) && s.shared.queue == [] && !(t == MASTER && s.shared.nTodo == 0)
    requires s.shared.nIdle >= 0 && s.shared.nTotal >= 0
    ensures Inv(LockedPart(s, t))
  {
    var s' := LockedPart(s, t);
    ThreadUpdate(s.threads, t, Waiting(false));
    CountersNonNegative(s.threads);
    forall c: T ensures ConservedAt(s', c) {
      assert ConservedAt(s, c);
      ConservedUpdate(s, s', t, c);
    }
    forall i | 0 <= i < |s.threads| && i != t ensures s'.threads[i] == s.threads[i] { }
  }

  lemma ReleaseTake<T(!new)>(s: System<T>, t: nat)
    requires LockedInv(s, t) && s.shared.queue != []
    requires s.shared.nIdle >= 0 && s.shared.nTotal >= 0
    ensures Inv(LockedPart(s, t))
  {
    hide ConservedAt, BatchCount;
    var s' := LockedPart(s, t);
    ThreadUpdate(s.threads, t, s'.threads[t]);
    TakeConserves(s, t);
    forall i | 0 <= i < |s.threads| && i != t ensures s'.threads[i] == s.threads[i] { }
  }

  /** A batch that is taken leaves the queue and enters the hands of its thread. */
  lemma TakeConserves<T(!new)>(s: System<T>, t: nat)
    requires t < |s.threads| && Conserved(s) && (s.threads[t].Busy? ==> s.threads[t].rest == []) && s.shared.queue != []
    requires s.shared.nIdle >= 0 && s.shared.nTotal >= 0
    ensures Conserved(LockedPart(s, t))
  {
    hide BatchCount;
    var s' := LockedPart(s, t);
    PoppedSplit(s.shared.queue, BatchCount(s.shared));
    forall c: T ensures ConservedAt(s', c) {
      assert ConservedAt(s, c);
      ConservedUpdate(s, s', t, c);
    }
  }

  lemma StepKeeps<T(!new)>(s: System<T>, l: Label, checks: seq<T>, s': System<T>)
    requires Inv(s) && Step(s, l, checks, s')
    ensures Inv(s')
  {
    match l
    case Call(t) => CallKeeps(s, t);
    case Push(_, _) => PushKeeps(s, checks, s'.threads);
    case Run(t, result) => RunKeeps(s, t, result);
    case _ =>
      LockTaken(s, l);
      var k := Locked(s, l);
      if k.shared.queue != [] {
        ReleaseTake(k, l.t);
      } else if l.t == MASTER && k.shared.nTodo == 0 {
        ReleaseReturn(k, l.t);
      } else {
        ReleaseSleep(k, l.t);
      }
  }

  // ------------------------------------------------------------------
  // Whole runs
  // ------------------------------------------------------------------

  /** `states` is one interleaving from an unused queue. */
  ghost predicate IsRun<T>(states: seq<System<T>>, labels: seq<Label>, added: seq<seq<T>>) {
    && |states| == |labels| + 1 == |added| + 1
    && Init(states[0])
    && forall i :: 0 <= i < |labels| ==> Step(states[i], labels[i], added[i], states[i + 1])
  }

  lemma {:induction false} RunInv<T(!new)>(states: seq<System<T>>, labels: seq<Label>, added: seq<seq<T>>, k: nat)
    requires IsRun(states, labels, added) && k < |states|
    ensures Inv(states[k])
  {
    if k == 0 {
      InitInv(states[0]);
    } else {
      RunInv(states, labels, added, k - 1);
      StepKeeps(states[k - 1], labels[k - 1], added[k - 1], states[k]);
    }
  }

  /** In every interleaving every verdict that Wait ever returned was right for its own round. */
  lemma VerdictsRight<T(!new)>(states: seq<System<T>>, labels: seq<Label>, added: seq<seq<T>>, k: nat, e: nat)
    requires IsRun(states, labels, added) && k < |states|
    requires e < |states[k].log| && states[k].log[e].Returned?
    ensures VerdictRight(RoundOf(states[k].log[..e]), states[k].log[e].verdict)
  {
    RunInv(states, labels, added, k);
    assert GoodPrefix(states[k].log, e);
  }

  /** No check runs more often than it was added, and none runs outside the round that it was added in. */
  lemma RunsAtMostOnce<T(!new)>(states: seq<System<T>>, labels: seq<Label>, added: seq<seq<T>>, k: nat, e: nat)
    requires IsRun(states, labels, added) && k < |states| && e <= |states[k].log|
    ensures RoundOf(states[k].log[..e]).ran <= RoundOf(states[k].log[..e]).added
  {
    RunInv(states, labels, added, k);
    assert GoodPrefix(states[k].log, e);
  }

  /** The unsigned subtraction `nTodo -= nNow` never wraps. */
  lemma TodoNeverWraps<T(!new)>(states: seq<System<T>>, labels: seq<Label>, added: seq<seq<T>>, k: nat)
    requires IsRun(states, labels, added) && k < |labels| && labels[k].Finish?
    ensures labels[k].t < |states[k].threads| && states[k].threads[labels[k].t].Busy?
    ensures states[k].shared.nTodo >= states[k].threads[labels[k].t].nNow > 0
  {
    RunInv(states, labels, added, k);
    assert Step(states[k], labels[k], added[k], states[k + 1]);
    LockTaken(states[k], labels[k]);
  }

  // ------------------------------------------------------------------
  // Progress: Wait cannot get stuck
  // ------------------------------------------------------------------

  /** A step that some thread takes of itself: no new call, no new work, no spurious wake-up. */
  ghost predicate OwnStep<T>(s: System<T>, l: Label) {
    && Enabled(s, l, [])
    && (l.Enter? || l.Finish? || l.Run? || (l.Wake? && s.threads[l.t].notified))
  }

  /** A master that waits un-notified leaves some worker holding a non-empty batch. */
  lemma WaitingMasterHasWorker<T(!new)>(s: System<T>) returns (i: nat)
    requires Inv(s) && s.threads[MASTER] == Waiting(false)
    ensures MASTER < i < |s.threads| && s.threads[i].Busy? && s.threads[i].nNow > 0
  {
    i := SumPositive(s.threads, NowOf, |s.threads|);
  }

  /** A step that is enabled leads to a state. */
  lemma OwnStepGoes<T(!new)>(s: System<T>, l: Label) returns (s': System<T>)
    requires Inv(s) && OwnStep(s, l)
    ensures Step(s, l, [], s')
  {
    hide Inv, LockedPart, LockedInv, AfterRun;
    if l.Run? {
      s' := AfterRun(s, l.t, l.result);
    } else {
      LockTaken(s, l);
      s' := LockedPart(Locked(s, l), l.t);
    }
  }

  /** While the master is inside Wait some thread can move without being woken spuriously, and does. */
  lemma NeverStuck<T(!new)>(s: System<T>) returns (l: Label, s': System<T>)
    requires Inv(s) && s.threads[MASTER] != Outside
    ensures OwnStep(s, l) && Step(s, l, [], s')
  {
    var t := MASTER;
    if s.threads[MASTER] == Waiting(false) {
      t := WaitingMasterHasWorker(s);
    }
    match s.threads[t] {
      case Entering => l := Enter(t);
      case Busy(rest, _, _) => l := if rest == [] then Finish(t) else Run(t, true);
      case Waiting(_) => l := Wake(t);
    }
    s' := OwnStepGoes(s, l);
  }

  function WeightOf<T(!new)>(p: Phase<T>): int {
    match p
    case Outside => 0
    case Entering => 1
    case Busy(rest, _, _) => 2 + 2 * |rest|
    case Waiting(notified) => if notified then 1 else 0
  }

  function Weight<T(!new)>(s: System<T>): int { 5 * |s.shared.queue| + Total(s.threads, WeightOf) }

  lemma WeightLocked<T(!new)>(s: System<T>, l: Label)
    requires OwnStep(s, l) && !l.Run?
    ensures Weight(Locked(s, l)) <= Weight(s) + (if l.Finish? then 1 else 0)
    ensures Locked(s, l).threads[l.t] == s.threads[l.t]
  {
    SumUpdate(s.threads, WeightOf, MASTER, Waiting(true), |s.threads|);
  }

  lemma WeightReleased<T(!new)>(k: System<T>, t: nat)
    requires t < |k.threads| && k.shared.nIdle >= 0 && k.shared.nTotal >= 0
    ensures Weight(LockedPart(k, t)) <= Weight(k) - WeightOf(k.threads[t])
  {
    SumUpdate(k.threads, WeightOf, t, LockedPart(k, t).threads[t], |k.threads|);
  }

  /** Every such step uses up weight, so only finitely many can be taken in a row. */
  lemma OwnStepShrinks<T(!new)>(s: System<T>, l: Label, s': System<T>)
    requires OwnStep(s, l) && Step(s, l, [], s')
    ensures 0 <= Weight(s') < Weight(s)
  {
    SumBounds(s'.threads, WeightOf, |s'.threads|);
    if l.Run? {
      SumUpdate(s.threads, WeightOf, l.t, s'.threads[l.t], |s.threads|);
    } else {
      WeightLocked(s, l);
      WeightReleased(Locked(s, l), l.t);
    }
  }

  /** A run of own steps. */
  ghost predicate OwnRun<T>(states: seq<System<T>>, labels: seq<Label>) {
    && |states| == |labels| + 1
    && forall i :: 0 <= i < |labels| ==> OwnStep(states[i], labels[i]) && Step(states[i], labels[i], [], states[i + 1])
  }

  lemma {:induction false} OwnRunBounded<T(!new)>(states: seq<System<T>>, labels: seq<Label>, n: nat)
    requires OwnRun(states, labels) && Inv(states[0]) && n <= |labels|
    ensures Inv(states[n])
    ensures n <= Weight(states[0]) - Weight(states[n])
  {
    if n > 0 {
      OwnRunBounded(states, labels, n - 1);
      StepKeeps(states[n - 1], labels[n - 1], [], states[n]);
      OwnStepShrinks(states[n - 1], labels[n - 1], states[n]);
    }
  }

  /** Whatever the schedule, once no thread can move of itself the master has returned from Wait;
      and that happens within `Weight` steps. */
  lemma WaitReturns<T(!new)>(states: seq<System<T>>, labels: seq<Label>)
    requires OwnRun(states, labels) && Inv(states[0])
    ensures |labels| <= Weight(states[0])
    ensures |states[|labels|].threads| > 0
    ensures states[|labels|].threads[MASTER] == Outside
         || exists l, s' :: OwnStep(states[|labels|], l) && Step(states[|labels|], l, [], s')
  {
    OwnRunBounded(states, labels, |labels|);
    var last := states[|labels|];
    SumBounds(last.threads, WeightOf, |last.threads|);
    if last.threads[MASTER] != Outside {
      var l, s' := NeverStuck(last);
    }
  }
}
