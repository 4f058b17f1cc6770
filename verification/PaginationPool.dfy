/**
 pagination_thread: each turn takes the next page number by an atomic fetch-and-add, and
 writes that page's file if there is such a page, or stops. Steps of the threads interleave
 arbitrarily.
 */
module PaginationPool {
  import opened Pagination

  datatype Pc = Fetch | Write(page: nat) | Done

  datatype Pool = Pool(counter: nat, pcs: seq<Pc>, files: map<nat, string>, writes: seq<nat>)

  function Start(threads: nat, files: map<nat, string>): Pool {
    Pool(0, seq(threads, _ => Fetch), files, [])
  }

  function Step(texts: seq<string>, s: Pool, t: nat): (s': Pool)
    requires t < |s.pcs| && (s.pcs[t].Write? ==> s.pcs[t].page < |texts|)
    ensures |s'.pcs| == |s.pcs|
  {
    match s.pcs[t]
    case Fetch => s.(counter := s.counter + 1,
        pcs := s.pcs[t := if s.counter >= |texts| then Done else Write(s.counter)])
    case Write(page) => s.(files := s.files[page := texts[page]], writes := s.writes + [page], pcs := s.pcs[t := Fetch])
    case Done => s
  }

  function DoneCount(pcs: seq<Pc>): nat {
    if pcs == [] then 0 else DoneCount(pcs[..|pcs| - 1]) + (if pcs[|pcs| - 1].Done? then 1 else 0)
  }

  function Claimed(texts: seq<string>, s: Pool): nat {
    if s.counter < |texts| then s.counter else |texts|
  }

  /** The counter is past the end by one for each thread that has stopped. */
  predicate CounterInv(texts: seq<string>, s: Pool) {
    s.counter == Claimed(texts, s) + DoneCount(s.pcs)
  }

  /** Claimed pages are held by one thread or written once, never both; nothing else is. */
  predicate ClaimInv(texts: seq<string>, s: Pool) {
    && (forall t | 0 <= t < |s.pcs| && s.pcs[t].Write? ::
          s.pcs[t].page < Claimed(texts, s) && s.pcs[t].page !in s.writes)
    && (forall t, u | 0 <= t < u < |s.pcs| && s.pcs[t].Write? :: s.pcs[t] != s.pcs[u])
    && (forall page | page in s.writes :: page < Claimed(texts, s))
    && (forall i, j | 0 <= i < j < |s.writes| :: s.writes[i] != s.writes[j])
    && (forall page | 0 <= page < Claimed(texts, s) ::
          page in s.writes || exists t :: 0 <= t < |s.pcs| && s.pcs[t] == Write(page))
  }

  predicate FilesInv(texts: seq<string>, before: map<nat, string>, s: Pool) {
    && (forall page | page in s.writes :: page < |texts|)
    && s.files.Keys == before.Keys + (set page | page in s.writes)
    && (forall page | page in s.files :: s.files[page] == if page in s.writes then texts[page] else before[page])
  }

  predicate Inv(texts: seq<string>, before: map<nat, string>, s: Pool) {
    CounterInv(texts, s) && ClaimInv(texts, s) && FilesInv(texts, before, s)
  }

  lemma {:induction false} DoneCountAt(pcs: seq<Pc>, t: nat, pc: Pc)
    requires t < |pcs|
    ensures DoneCount(pcs[t := pc]) == DoneCount(pcs) - (if pcs[t].Done? then 1 else 0) + (if pc.Done? then 1 else 0)
  {
    var n := |pcs| - 1;
    if t == n {
      assert pcs[t := pc][..n] == pcs[..n];
    } else {
      assert pcs[t := pc][..n] == pcs[..n][t := pc];
      DoneCountAt(pcs[..n], t, pc);
    }
  }

  lemma {:induction false} DoneCountAll(pcs: seq<Pc>, done: bool)
    requires forall t | 0 <= t < |pcs| :: pcs[t].Done? == done
    ensures DoneCount(pcs) == if done then |pcs| else 0
  {
    if pcs == [] {
    } else {
      DoneCountAll(pcs[..|pcs| - 1], done);
    }
  }

  lemma StepKeepsClaims(texts: seq<string>, s: Pool, t: nat)
    requires t < |s.pcs| && ClaimInv(texts, s)
    ensures ClaimInv(texts, Step(texts, s, t))
  {
    var s' := Step(texts, s, t);
    forall page | 0 <= page < Claimed(texts, s')
      ensures page in s'.writes || exists u :: 0 <= u < |s'.pcs| && s'.pcs[u] == Write(page)
    {
      if page >= Claimed(texts, s) {
        assert s'.pcs[t] == Write(page);
      } else if page !in s'.writes {
        assert page !in s.writes;
        var u :| 0 <= u < |s.pcs| && s.pcs[u] == Write(page);
        assert s'.pcs[u] == Write(page);
      }
    }
  }

  lemma StepKeepsFiles(texts: seq<string>, before: map<nat, string>, s: Pool, t: nat)
    requires t < |s.pcs| && (s.pcs[t].Write? ==> s.pcs[t].page < |texts|) && FilesInv(texts, before, s)
    ensures FilesInv(texts, before, Step(texts, s, t))
  {
    var s' := Step(texts, s, t);
    assert forall page | page in s'.writes :: page in s.writes || s.pcs[t] == Write(page);
    assert s.pcs[t].Write? ==> s'.writes[|s.writes|] == s.pcs[t].page;
    assert forall page | page in s.writes :: page in s'.writes;
  }

  lemma StepKeeps(texts: seq<string>, before: map<nat, string>, s: Pool, t: nat)
    requires t < |s.pcs| && Inv(texts, before, s)
    ensures Inv(texts, before, Step(texts, s, t)) && |Step(texts, s, t).pcs| == |s.pcs|
  {
    assert s.pcs[t].Write? ==> s.pcs[t].page < Claimed(texts, s);
    DoneCountAt(s.pcs, t, Step(texts, s, t).pcs[t]);
    if s.pcs[t].Done? {
      assert s.pcs[t := Done] == s.pcs;
    }
    StepKeepsClaims(texts, s, t);
    StepKeepsFiles(texts, before, s, t);
    hide ClaimInv, FilesInv, DoneCount;
  }

  lemma StartInv(texts: seq<string>, before: map<nat, string>, threads: nat)
    ensures Inv(texts, before, Start(threads, before))
  {
    DoneCountAll(Start(threads, before).pcs, false);
  }

  /** A schedule says which thread steps next; threads beyond the pool step nowhere. */
  function RunFrom(texts: seq<string>, before: map<nat, string>, s: Pool, schedule: seq<nat>): (s': Pool)
    requires Inv(texts, before, s)
    ensures Inv(texts, before, s') && |s'.pcs| == |s.pcs|
    decreases |schedule|
  {
    if schedule == [] then s
    else if schedule[0] >= |s.pcs| then RunFrom(texts, before, s, schedule[1..])
    else
      StepKeeps(texts, before, s, schedule[0]);
      assert s.pcs[schedule[0]].Write? ==> s.pcs[schedule[0]].page < Claimed(texts, s);
      RunFrom(texts, before, Step(texts, s, schedule[0]), schedule[1..])
  }

  function PoolRun(texts: seq<string>, before: map<nat, string>, threads: nat, schedule: seq<nat>): (s: Pool)
    ensures Inv(texts, before, s) && |s.pcs| == threads
  {
    StartInv(texts, before, threads);
    RunFrom(texts, before, Start(threads, before), schedule)
  }

  /**
   The pagination pool is exact. From counter 0 with at least one thread, under every
   interleaving: once all threads have stopped, every page number has been written exactly
   once, every page's file holds its text, no other file was touched, and the counter is at
   the number of pages plus the number of threads.
   */
  lemma PoolIsExact(texts: seq<string>, before: map<nat, string>, threads: nat, schedule: seq<nat>)
    requires threads > 0
    requires forall t | 0 <= t < threads :: PoolRun(texts, before, threads, schedule).pcs[t].Done?
    ensures var s := PoolRun(texts, before, threads, schedule);
            && s.counter == |texts| + threads
            && (forall page | 0 <= page < |texts| :: page in s.writes)
            && (forall page | page in s.writes :: page < |texts|)
            && (forall i, j | 0 <= i < j < |s.writes| :: s.writes[i] != s.writes[j])
            && s.files == before + map page: nat | page < |texts| :: texts[page]
  {
    var s := PoolRun(texts, before, threads, schedule);
    DoneCountAll(s.pcs, true);
    assert Claimed(texts, s) == |texts|;
    assert forall page | 0 <= page < |texts| :: page in s.writes;
  }

  /**
   Pages are replaced. When the last build's pages are the files there were, removing the
   stale ones and letting the pool write the new pages, under any interleaving, leaves exactly
   the files of the new pages, each with its text.
   */
  lemma PagesReplaced(before: map<nat, string>, oldNoPages: nat, splitFile: (string, string), indent: string,
                      pages: seq<string>, threads: nat, schedule: seq<nat>)
    requires threads > 0 && forall p :: p in before <==> p < oldNoPages
    requires var texts := PageTexts(splitFile, indent, pages);
             forall t | 0 <= t < threads ::
               PoolRun(texts, StaleRemoved(before, |pages|, oldNoPages), threads, schedule).pcs[t].Done?
    ensures var texts := PageTexts(splitFile, indent, pages);
            PoolRun(texts, StaleRemoved(before, |pages|, oldNoPages), threads, schedule).files ==
            map p: nat | p < |pages| :: PageText(splitFile, indent, pages[p])
  {
    hide PoolRun, PageText;
    var texts := PageTexts(splitFile, indent, pages);
    PoolIsExact(texts, StaleRemoved(before, |pages|, oldNoPages), threads, schedule);
  }

  /** Every step of a thread that has not stopped brings the end closer, so every fair run ends. */
  lemma StepProgresses(texts: seq<string>, before: map<nat, string>, s: Pool, t: nat)
    requires t < |s.pcs| && Inv(texts, before, s) && !s.pcs[t].Done?
    requires s.pcs[t].Write? ==> s.pcs[t].page < |texts|
    ensures var s' := Step(texts, s, t);
            var left, left' := |texts| + |s.pcs| - s.counter, |texts| + |s.pcs| - s'.counter;
            && 0 <= left' <= left
            && (left' == left ==> |s'.writes| > |s.writes|)
  {
    DoneCountAt(s.pcs, t, Step(texts, s, t).pcs[t]);
    NotAllDone(s.pcs, t);
  }

  lemma {:induction false} NotAllDone(pcs: seq<Pc>, t: nat)
    requires t < |pcs| && !pcs[t].Done?
    ensures DoneCount(pcs) < |pcs|
  {
    var n := |pcs| - 1;
    if t == n {
      AtMost(pcs[..n]);
    } else {
      NotAllDone(pcs[..n], t);
    }
  }

  lemma {:induction false} AtMost(pcs: seq<Pc>)
    ensures DoneCount(pcs) <= |pcs|
  {
    if pcs == [] {
    } else {
      AtMost(pcs[..|pcs| - 1]);
    }
  }
}
