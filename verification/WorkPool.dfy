/**
 The worker pool that build_updated runs twice, for dep_thread and for build_thread. Any
 number of threads share a counter, an iterator over the names, and result sets; each turn of
 a thread's loop is split at every access to them, and threads interleave arbitrarily.
 */
module WorkPool {
  import opened Results

  /**
   Which shared result set a page's name goes to: for build_thread failed or built, for
   dep_thread problem or updated.
   */
  datatype Outcome = First | Second | Neither

  /**
   The work: distinct names in iteration order, what processing each yields, and whether
   noFinished is bumped for it.
   */
  datatype Work = Work(names: seq<string>, outcome: string -> Outcome, counts: string -> bool)

  /** Where a thread is. Items are positions among the names. */
  datatype Pc =
    | Top
    | Lock
    | Recheck
    | Bump
    | Take
    | Unlock(item: nat)
    | Process(item: nat)
    | Record(item: nat)
    | Finish(item: nat)
    | Done

  datatype Pool = Pool(
    counter: nat,
    nextInfo: nat,
    holder: Option<nat>,
    pcs: seq<Pc>,
    first: set<string>,
    second: set<string>,
    noFinished: nat,
    log: seq<nat>)

  function Start(threads: nat): Pool {
    Pool(0, 0, None, seq(threads, _ => Top), {}, {}, 0, [])
  }

  /** One step of thread t; a thread that waits for the lock or is done stays as it is. */
  function Step(w: Work, s: Pool, t: nat): (s': Pool)
    requires t < |s.pcs| && InRange(w, s)
    ensures |s'.pcs| == |s.pcs|
  {
    match s.pcs[t]
    case Top => s.(pcs := s.pcs[t := if s.counter < |w.names| then Lock else Done])
    case Lock => if s.holder.None? then s.(holder := Some(t), pcs := s.pcs[t := Recheck]) else s
    case Recheck =>
      if s.counter >= |w.names| then s.(holder := None, pcs := s.pcs[t := Done])
      else s.(pcs := s.pcs[t := Bump])
    case Bump => s.(counter := s.counter + 1, pcs := s.pcs[t := Take])
    case Take => s.(nextInfo := s.nextInfo + 1, pcs := s.pcs[t := Unlock(s.nextInfo)])
    case Unlock(item) => s.(holder := None, pcs := s.pcs[t := Process(item)])
    case Process(item) => s.(pcs := s.pcs[t := Record(item)])
    case Record(item) =>
      var name := w.names[item];
      s.(first := if w.outcome(name) == First then s.first + {name} else s.first,
         second := if w.outcome(name) == Second then s.second + {name} else s.second,
         log := s.log + [item],
         pcs := s.pcs[t := if w.counts(name) then Finish(item) else Top])
    case Finish(_) => s.(noFinished := s.noFinished + 1, pcs := s.pcs[t := Top])
    case Done => s
  }

  /** The item a thread holds and has not yet recorded. */
  function Held(pc: Pc): Option<nat> {
    match pc
    case Unlock(item) => Some(item)
    case Process(item) => Some(item)
    case Record(item) => Some(item)
    case _ => None
  }

  predicate InRange(w: Work, s: Pool) {
    forall t | 0 <= t < |s.pcs| && s.pcs[t].Record? :: s.pcs[t].item < |w.names|
  }

  predicate InCritical(pc: Pc) {
    pc.Recheck? || pc.Bump? || pc.Take? || pc.Unlock?
  }

  /** Exactly the thread that holds the lock is between taking and giving it back. */
  predicate MutexInv(s: Pool) {
    && (s.holder.Some? ==> s.holder.value < |s.pcs|)
    && forall t | 0 <= t < |s.pcs| :: InCritical(s.pcs[t]) <==> s.holder == Some(t)
  }

  /** nextInfo stays counter places past the start, but for the moment between the two updates. */
  predicate CounterInv(w: Work, s: Pool)
    requires MutexInv(s)
  {
    && s.counter <= |w.names|
    && (s.holder.Some? && s.pcs[s.holder.value].Bump? ==> s.counter < |w.names|)
    && s.nextInfo + (if s.holder.Some? && s.pcs[s.holder.value].Take? then 1 else 0) == s.counter
    && (forall t | 0 <= t < |s.pcs| && s.pcs[t].Done? :: s.counter == |w.names|)
  }

  /** Held and logged items are below the iterator, and no item is both. */
  predicate BelowInv(s: Pool) {
    && (forall t | 0 <= t < |s.pcs| && Held(s.pcs[t]).Some? ::
          Held(s.pcs[t]).value < s.nextInfo && Held(s.pcs[t]).value !in s.log)
    && (forall item | item in s.log :: item < s.nextInfo)
  }

  /** No item is held twice or logged twice. */
  predicate OnceInv(s: Pool) {
    && (forall t, u | 0 <= t < u < |s.pcs| && Held(s.pcs[t]).Some? :: Held(s.pcs[t]) != Held(s.pcs[u]))
    && (forall i, j | 0 <= i < j < |s.log| :: s.log[i] != s.log[j])
  }

  /** Every item below the iterator is held or logged. */
  predicate CoverInv(s: Pool) {
    forall item | 0 <= item < s.nextInfo ::
      item in s.log || exists t :: 0 <= t < |s.pcs| && Held(s.pcs[t]) == Some(item)
  }

  predicate ClaimInv(s: Pool) {
    BelowInv(s) && OnceInv(s) && CoverInv(s)
  }

  predicate LogOk(w: Work, log: seq<nat>) {
    forall i | 0 <= i < |log| :: log[i] < |w.names|
  }

  function NamesOf(w: Work, log: seq<nat>, outcome: Outcome): set<string>
    requires LogOk(w, log)
  {
    set i | 0 <= i < |log| && w.outcome(w.names[log[i]]) == outcome :: w.names[log[i]]
  }

  function Counted(w: Work, log: seq<nat>): nat
    requires LogOk(w, log)
  {
    if log == [] then 0
    else Counted(w, log[..|log| - 1]) + (if w.counts(w.names[log[|log| - 1]]) then 1 else 0)
  }

  function Finishing(pcs: seq<Pc>): nat {
    if pcs == [] then 0
    else Finishing(pcs[..|pcs| - 1]) + (if pcs[|pcs| - 1].Finish? then 1 else 0)
  }

  /** The result sets and noFinished say what the log says. */
  predicate ResultInv(w: Work, s: Pool) {
    && LogOk(w, s.log)
    && s.first == NamesOf(w, s.log, First)
    && s.second == NamesOf(w, s.log, Second)
    && s.noFinished + Finishing(s.pcs) == Counted(w, s.log)
  }

  predicate Inv(w: Work, s: Pool) {
    InRange(w, s) && MutexInv(s) && CounterInv(w, s) && ClaimInv(s) && ResultInv(w, s)
  }

  lemma {:induction false} FinishingAt(pcs: seq<Pc>, t: nat, pc: Pc)
    requires t < |pcs|
    ensures Finishing(pcs[t := pc]) == Finishing(pcs) - (if pcs[t].Finish? then 1 else 0)
              + (if pc.Finish? then 1 else 0)
  {
    var n := |pcs| - 1;
    if t == n {
      assert pcs[t := pc][..n] == pcs[..n];
    } else {
      assert pcs[t := pc][..n] == pcs[..n][t := pc];
      FinishingAt(pcs[..n], t, pc);
    }
  }

  lemma StepKeepsMutex(w: Work, s: Pool, t: nat)
    requires t < |s.pcs| && InRange(w, s) && MutexInv(s)
    ensures MutexInv(Step(w, s, t))
  {
    assert InCritical(s.pcs[t]) <==> s.holder == Some(t);
  }

  lemma StepKeepsCounter(w: Work, s: Pool, t: nat)
    requires t < |s.pcs| && InRange(w, s) && MutexInv(s) && CounterInv(w, s) && MutexInv(Step(w, s, t))
    ensures CounterInv(w, Step(w, s, t))
  {
    hide InRange;
    var s' := Step(w, s, t);
    forall u | 0 <= u < |s'.pcs| && s'.pcs[u].Done?
      ensures s'.counter == |w.names|
    {
      assert u == t || s.pcs[u].Done?;
    }
    assert InCritical(s.pcs[t]) <==> s.holder == Some(t);
  }

  lemma StepKeepsRange(w: Work, s: Pool, t: nat)
    requires t < |s.pcs| && InRange(w, s) && MutexInv(s) && CounterInv(w, s) && ClaimInv(s)
    ensures InRange(w, Step(w, s, t))
  {
    assert Held(s.pcs[t]).Some? ==> Held(s.pcs[t]).value < s.nextInfo <= s.counter;
  }

  lemma StepKeepsBelow(w: Work, s: Pool, t: nat)
    requires t < |s.pcs| && InRange(w, s) && BelowInv(s) && OnceInv(s)
    ensures BelowInv(Step(w, s, t))
  {
    hide InRange;
    assert forall u | 0 <= u < |s.pcs| && u != t && Held(s.pcs[u]).Some? :: Held(s.pcs[u]) != Held(s.pcs[t]);
  }

  lemma StepKeepsOnce(w: Work, s: Pool, t: nat)
    requires t < |s.pcs| && InRange(w, s) && BelowInv(s) && OnceInv(s)
    ensures OnceInv(Step(w, s, t))
  {
    hide InRange;
    var s' := Step(w, s, t);
    assert Held(s'.pcs[t]) == Held(s.pcs[t]) || Held(s'.pcs[t]) == None || Held(s'.pcs[t]) == Some(s.nextInfo);
    assert s'.log == s.log || (Held(s.pcs[t]).Some? && s'.log == s.log + [Held(s.pcs[t]).value]);
  }

  lemma StepKeepsCover(w: Work, s: Pool, t: nat)
    requires t < |s.pcs| && InRange(w, s) && CoverInv(s)
    ensures CoverInv(Step(w, s, t))
  {
    hide InRange;
    var s' := Step(w, s, t);
    forall item | 0 <= item < s'.nextInfo
      ensures item in s'.log || exists u :: 0 <= u < |s'.pcs| && Held(s'.pcs[u]) == Some(item)
    {
      if item == s.nextInfo {
        assert Held(s'.pcs[t]) == Some(item);
      } else if item !in s'.log {
        assert item !in s.log;
        var u :| 0 <= u < |s.pcs| && Held(s.pcs[u]) == Some(item);
        assert Held(s'.pcs[u]) == Some(item);
      }
    }
  }

  lemma StepKeepsResults(w: Work, s: Pool, t: nat)
    requires t < |s.pcs| && InRange(w, s) && ResultInv(w, s)
    ensures ResultInv(w, Step(w, s, t))
  {
    hide Counted, NamesOf, Finishing, LogOk;
    match s.pcs[t]
    case Record(item) =>
      FinishingAt(s.pcs, t, if w.counts(w.names[item]) then Finish(item) else Top);
      NamesSnoc(w, s.log, item, First);
      NamesSnoc(w, s.log, item, Second);
      CountedSnoc(w, s.log, item);
    case Finish(_) =>
      FinishingAt(s.pcs, t, Top);
    case _ =>
      SameResults(w, s, t);
  }

  lemma SameResults(w: Work, s: Pool, t: nat)
    requires t < |s.pcs| && InRange(w, s) && !s.pcs[t].Record? && !s.pcs[t].Finish?
    ensures var s' := Step(w, s, t);
            && s'.first == s.first && s'.second == s.second && s'.log == s.log && s'.noFinished == s.noFinished
            && Finishing(s'.pcs) == Finishing(s.pcs)
  {
    hide Finishing, InRange;
    FinishingAt(s.pcs, t, Step(w, s, t).pcs[t]);
    assert s.pcs[t := s.pcs[t]] == s.pcs;
  }

  lemma CountedSnoc(w: Work, log: seq<nat>, item: nat)
    requires LogOk(w, log) && item < |w.names|
    ensures LogOk(w, log + [item])
    ensures Counted(w, log + [item]) == Counted(w, log) + (if w.counts(w.names[item]) then 1 else 0)
  {
    assert (log + [item])[..|log|] == log;
  }

  lemma NamesSnoc(w: Work, log: seq<nat>, item: nat, o: Outcome)
    requires LogOk(w, log) && item < |w.names|
    ensures LogOk(w, log + [item])
    ensures NamesOf(w, log + [item], o) == NamesOf(w, log, o)
              + (if w.outcome(w.names[item]) == o then {w.names[item]} else {})
  {
    var log' := log + [item];
    forall name | name in NamesOf(w, log, o)
      ensures name in NamesOf(w, log', o)
    {
      var i :| 0 <= i < |log| && w.outcome(w.names[log[i]]) == o && w.names[log[i]] == name;
      assert log'[i] == log[i];
    }
    assert log'[|log|] == item;
  }

  lemma StepKeeps(w: Work, s: Pool, t: nat)
    requires t < |s.pcs| && Inv(w, s)
    ensures Inv(w, Step(w, s, t)) && |Step(w, s, t).pcs| == |s.pcs|
  {
    hide InRange, MutexInv, CounterInv, BelowInv, OnceInv, CoverInv, ResultInv, Step;
    StepKeepsMutex(w, s, t);
    StepKeepsCounter(w, s, t);
    StepKeepsRange(w, s, t);
    StepKeepsBelow(w, s, t);
    StepKeepsOnce(w, s, t);
    StepKeepsCover(w, s, t);
    StepKeepsResults(w, s, t);
  }

  // ---- Runs ----

  /** A schedule says which thread steps next; threads beyond the pool step nowhere. */
  function Run(w: Work, s: Pool, schedule: seq<nat>): (s': Pool)
    requires Inv(w, s)
    ensures Inv(w, s') && |s'.pcs| == |s.pcs|
    decreases |schedule|
  {
    if schedule == [] then s
    else if schedule[0] >= |s.pcs| then Run(w, s, schedule[1..])
    else
      StepKeeps(w, s, schedule[0]);
      Run(w, Step(w, s, schedule[0]), schedule[1..])
  }

  /** A whole run of a pool of that many threads. */
  function PoolRun(w: Work, threads: nat, schedule: seq<nat>): (s: Pool)
    ensures Inv(w, s) && |s.pcs| == threads
  {
    StartInv(w, threads);
    Run(w, Start(threads), schedule)
  }

  lemma {:induction false} FinishingNone(pcs: seq<Pc>)
    requires forall t | 0 <= t < |pcs| :: !pcs[t].Finish?
    ensures Finishing(pcs) == 0
  {
    if pcs == [] {
    } else {
      FinishingNone(pcs[..|pcs| - 1]);
    }
  }

  lemma StartInv(w: Work, threads: nat)
    ensures Inv(w, Start(threads))
  {
    FinishingNone(Start(threads).pcs);
  }

  predicate AllDone(s: Pool) {
    forall t | 0 <= t < |s.pcs| :: s.pcs[t].Done?
  }

  /** Positions in an order that meets each exactly once. */
  predicate IsOrder(log: seq<nat>, n: nat) {
    && (forall i | 0 <= i < |log| :: log[i] < n)
    && (forall i, j | 0 <= i < j < |log| :: log[i] != log[j])
    && (forall item | 0 <= item < n :: item in log)
  }

  lemma SomeoneIsCritical(s: Pool)
    requires MutexInv(s)
    ensures s.holder.Some? ==> exists t :: 0 <= t < |s.pcs| && InCritical(s.pcs[t])
  {
    if s.holder.Some? {
      assert InCritical(s.pcs[s.holder.value]);
    }
  }

  /** What the invariant says once all threads have stopped. */
  lemma ExactWhenDone(w: Work, s: Pool)
    requires Inv(w, s) && AllDone(s) && s.pcs != []
    ensures s.counter == s.nextInfo == |w.names| && s.holder == None
    ensures IsOrder(s.log, |w.names|)
    ensures s.first == (set name | name in w.names && w.outcome(name) == First)
    ensures s.second == (set name | name in w.names && w.outcome(name) == Second)
    ensures s.noFinished == Counted(w, s.log)
  {
    assert s.pcs[0].Done?;
    SomeoneIsCritical(s);
    assert forall t | 0 <= t < |s.pcs| :: !InCritical(s.pcs[t]);
    assert forall item | 0 <= item < |w.names| :: item in s.log;
    FinishingNone(s.pcs);
    AllNames(w, s.log, First);
    AllNames(w, s.log, Second);
  }

  /**
   Work sharing is exact. Under every schedule of any number of threads: while running, the
   iterator is counter places past the start except inside the locked update of both; when
   all threads have stopped, every name was claimed and processed exactly once, the result
   sets hold exactly the names of each outcome, and noFinished counts the names it should.
   */
  lemma SharingIsExact(w: Work, threads: nat, schedule: seq<nat>)
    requires threads > 0
    requires AllDone(PoolRun(w, threads, schedule))
    ensures var s := PoolRun(w, threads, schedule);
            && s.counter == s.nextInfo == |w.names| && s.holder == None
            && IsOrder(s.log, |w.names|)
            && s.first == (set name | name in w.names && w.outcome(name) == First)
            && s.second == (set name | name in w.names && w.outcome(name) == Second)
            && s.noFinished == Counted(w, s.log)
  {
    ExactWhenDone(w, PoolRun(w, threads, schedule));
  }

  lemma AllNames(w: Work, log: seq<nat>, o: Outcome)
    requires LogOk(w, log) && forall item | 0 <= item < |w.names| :: item in log
    ensures NamesOf(w, log, o) == set name | name in w.names && w.outcome(name) == o
  {
    forall name | name in w.names && w.outcome(name) == o
      ensures name in NamesOf(w, log, o)
    {
      var item :| 0 <= item < |w.names| && w.names[item] == name;
      assert item in log;
      var i :| 0 <= i < |log| && log[i] == item;
    }
  }

  /** When every name counts, noFinished ends at their number. */
  lemma {:induction false} AllCounted(w: Work, log: seq<nat>)
    requires LogOk(w, log) && forall name | name in w.names :: w.counts(name)
    ensures Counted(w, log) == |log|
  {
    if log == [] {
    } else {
      AllCounted(w, log[..|log| - 1]);
    }
  }

  lemma {:induction false} OrderLength(log: seq<nat>, n: nat)
    requires IsOrder(log, n)
    ensures |log| == n
  {
    LogSize(log);
    assert Items(log) == Below(n);
  }

  /** The positions below n. */
  function Below(n: nat): (r: set<nat>)
    ensures |r| == n
    ensures forall item: nat :: item in r <==> item < n
  {
    if n == 0 then {} else Below(n - 1) + {n - 1}
  }

  function Items(log: seq<nat>): set<nat> {
    set item | item in log
  }

  lemma {:induction false} LogSize(log: seq<nat>)
    requires forall i, j | 0 <= i < j < |log| :: log[i] != log[j]
    ensures |Items(log)| == |log|
  {
    if log == [] {
    } else {
      var n := |log| - 1;
      LogSize(log[..n]);
      assert forall i | 0 <= i < n :: log[..n][i] == log[i] && log[i] != log[n];
      assert log == log[..n] + [log[n]];
      assert Items(log) == Items(log[..n]) + {log[n]};
    }
  }

  /**
   For build_thread, where every page is either built or failed and always counts: when all
   threads have stopped, the built and failed names partition the selected ones, and
   noFinished is their number.
   */
  lemma BuildPoolPartitions(w: Work, s: Pool)
    requires Inv(w, s) && AllDone(s) && s.pcs != []
    requires forall name | name in w.names :: w.outcome(name) != Neither && w.counts(name)
    ensures s.first + s.second == (set name | name in w.names)
    ensures s.first !! s.second
    ensures s.noFinished == |w.names|
  {
    ExactWhenDone(w, s);
    AllCounted(w, s.log);
    OrderLength(s.log, |w.names|);
  }

  // ---- Every run ends ----

  /** Steps a thread still takes at most before it next claims an item or stops. */
  function Rank(pc: Pc): nat {
    match pc
    case Top => 4
    case Lock => 3
    case Recheck => 2
    case Bump => 1
    case Take => 10
    case Unlock(_) => 9
    case Process(_) => 8
    case Record(_) => 7
    case Finish(_) => 6
    case Done => 0
  }

  function Ranks(pcs: seq<Pc>): nat {
    if pcs == [] then 0 else Ranks(pcs[..|pcs| - 1]) + Rank(pcs[|pcs| - 1])
  }

  lemma {:induction false} RanksAt(pcs: seq<Pc>, t: nat, pc: Pc)
    requires t < |pcs|
    ensures Ranks(pcs[t := pc]) == Ranks(pcs) - Rank(pcs[t]) + Rank(pc)
  {
    var n := |pcs| - 1;
    if t == n {
      assert pcs[t := pc][..n] == pcs[..n];
    } else {
      assert pcs[t := pc][..n] == pcs[..n][t := pc];
      RanksAt(pcs[..n], t, pc);
    }
  }

  /** What is left to do. */
  function Remaining(w: Work, s: Pool): int {
    20 * (|w.names| - s.counter) + Ranks(s.pcs)
  }

  /** Thread t is waiting for the lock another thread holds, or has stopped. */
  predicate Blocked(s: Pool, t: nat)
    requires t < |s.pcs|
  {
    s.pcs[t].Done? || (s.pcs[t].Lock? && s.holder.Some?)
  }

  /** Every step that is not a wait brings the end closer. */
  lemma StepProgresses(w: Work, s: Pool, t: nat)
    requires t < |s.pcs| && Inv(w, s)
    ensures if Blocked(s, t) then Step(w, s, t) == s
            else 0 <= Remaining(w, Step(w, s, t)) < Remaining(w, s)
  {
    hide Ranks, BelowInv, OnceInv, CoverInv, ResultInv;
    StepKeeps(w, s, t);
    RanksAt(s.pcs, t, Step(w, s, t).pcs[t]);
    assert InCritical(s.pcs[t]) <==> s.holder == Some(t);
  }

  /** Until all threads have stopped, one of them can step: there is no deadlock. */
  lemma SomeThreadSteps(w: Work, s: Pool) returns (t: nat)
    requires Inv(w, s) && !AllDone(s)
    ensures t < |s.pcs| && !Blocked(s, t)
  {
    if s.holder.Some? {
      t := s.holder.value;
      assert InCritical(s.pcs[t]);
    } else {
      t :| t < |s.pcs| && !s.pcs[t].Done?;
    }
  }
}
