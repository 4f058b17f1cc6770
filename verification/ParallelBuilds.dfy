/**
 build_updated with its two worker pools put together: the checking pool files the pages a
 sequential pass would, the building pool leaves the project as building the selected pages
 each once in some order does, and so what its threads leave is clean when that is.
 */
module ParallelBuilds {
  import opened BuildPool
  import opened Incremental
  import opened InputGraph
  import opened WorkPool

  /** The names are those in the set, each once: what iterating over a std::set gives. */
  predicate Lists(names: seq<string>, all: set<string>) {
    && (forall name | name in names :: name in all)
    && (forall name | name in all :: name in names)
    && (forall i, j | 0 <= i < j < |names| :: names[i] != names[j])
  }

  /** What dep_thread does with each page; counts says whether its loop body runs to the end. */
  function CheckWork(p: Project, names: seq<string>, counts: string -> bool): Work {
    Work(names,
         name => if name !in p.pages || Check(p, name) == UpToDate then Neither
                 else if Check(p, name) == Problem then First else Second,
         counts)
  }

  /** Under every schedule, dep_thread files the pages a sequential pass would. */
  lemma CheckedInParallel(p: Project, names: seq<string>, counts: string -> bool, threads: nat, schedule: seq<nat>)
    requires Lists(names, p.pages.Keys) && threads > 0
    requires AllDone(PoolRun(CheckWork(p, names, counts), threads, schedule))
    ensures var s := PoolRun(CheckWork(p, names, counts), threads, schedule);
            s.first == Problems(p) && s.second == Selected(p)
  {
    hide PoolRun, Check;
    SharingIsExact(CheckWork(p, names, counts), threads, schedule);
  }

  /** Info files are written no earlier than any source was. */
  predicate Timely(p: Project, names: seq<string>, written: string -> nat) {
    forall name, path | name in names && path in p.sources :: p.sources[path].modified <= written(name)
  }

  /** The jobs of the selected pages in any order. */
  lemma OrderedJobs(p: Project, names: seq<string>, written: string -> nat, log: seq<nat>)
    requires Lists(names, Selected(p)) && Timely(p, names, written) && IsOrder(log, |names|)
    ensures forall name | name in Recorded(names, log) :: name in p.pages
    ensures JobsFor(p, JobsIn(p, written, Recorded(names, log)))
  {
    hide Check, TimelyJob, JobOf;
    var order := Recorded(names, log);
    forall i | 0 <= i < |order|
      ensures order[i] in Selected(p)
    {
      assert order[i] == names[log[i]];
    }
    var jobs := JobsIn(p, written, order);
    forall i | 0 <= i < |jobs|
      ensures jobs[i].name == order[i] && TimelyJob(p, jobs[i])
    {
      JobIsTimely(p, names, written, order[i]);
    }
    forall name | name in Selected(p)
      ensures exists i :: 0 <= i < |jobs| && jobs[i].name == name
    {
      var item :| 0 <= item < |names| && names[item] == name;
      assert item in log;
      var i :| 0 <= i < |log| && log[i] == item;
      assert jobs[i].name == name;
    }
    forall i, j | 0 <= i < j < |jobs|
      ensures jobs[i].name != jobs[j].name
    {
      assert log[i] != log[j];
    }
  }

  lemma JobIsTimely(p: Project, names: seq<string>, written: string -> nat, name: string)
    requires name in p.pages && name in names && Timely(p, names, written)
    ensures JobOf(p, written, name).name == name && TimelyJob(p, JobOf(p, written, name))
  {
    hide FilesRead;
    if Build(p, name).Ok? {
      FilesReadAreDependencies(Texts(p.sources), p.pages[name].page);
    }
  }

  lemma {:induction false} ListSize(names: seq<string>, all: set<string>)
    requires Lists(names, all)
    ensures |names| == |all|
  {
    if names == [] {
      assert all == {};
    } else {
      var n := |names| - 1;
      assert names == names[..n] + [names[n]];
      assert forall i | 0 <= i < n :: names[..n][i] == names[i] && names[i] != names[n];
      ListSize(names[..n], all - {names[n]});
    }
  }

  /**
   Under every schedule, once its threads have stopped build_thread has left the project as
   building exactly the selected pages, each once, leaves it; built and failed names partition
   them by whether they build; noFinished is their number.
   */
  lemma BuiltInParallel(p: Project, names: seq<string>, written: string -> nat, threads: nat, schedule: seq<nat>)
    returns (jobs: seq<Job>)
    requires WellTracked(p) && Lists(names, Selected(p)) && Timely(p, names, written) && threads > 0
    requires AllDone(BuildRun(p, names, written, threads, schedule).pool)
    ensures JobsFor(p, jobs) && forall job | job in jobs :: job.name in p.pages
    ensures var s := BuildRun(p, names, written, threads, schedule);
            && s.project == BuildAll(p, jobs)
            && s.pool.second == (set name | name in Selected(p) && Build(p, name).Ok?)
            && s.pool.first == Selected(p) - s.pool.second
            && s.pool.noFinished == |Selected(p)|
  {
    hide Check, AllDone, BuildRun, JobOf, Build, IsOrder;
    ParallelIsSequential(p, names, written, threads, schedule);
    var s := BuildRun(p, names, written, threads, schedule);
    OrderedJobs(p, names, written, s.pool.log);
    InRangeOrder(s.pool.log, |names|);
    jobs := JobsIn(p, written, Recorded(names, s.pool.log));
    ListSize(names, Selected(p));
    assert Names(names) == Selected(p);
    JobsArePages(p, jobs);
  }

  lemma InRangeOrder(log: seq<nat>, n: nat)
    requires IsOrder(log, n)
    ensures forall i | 0 <= i < |log| :: log[i] < n
  {
  }

  /** Some pool of threads checked the pages, all have stopped, and left these result sets. */
  predicate ChecksTo(p: Project, pages: seq<string>, counts: string -> bool, threads: nat, schedule: seq<nat>,
                     problems: set<string>, selected: set<string>) {
    && Lists(pages, p.pages.Keys) && threads > 0
    && var s := PoolRun(CheckWork(p, pages, counts), threads, schedule);
       AllDone(s) && s.first == problems && s.second == selected
  }

  /** Some pool of threads built the pages, all have stopped, and these failed. */
  ghost predicate BuildsTo(p: Project, names: seq<string>, written: string -> nat, threads: nat, schedule: seq<nat>,
                     failed: set<string>, q: Project) {
    && Timely(p, names, written) && threads > 0
    && var s := BuildRun(p, names, written, threads, schedule);
       AllDone(s.pool) && s.pool.first == failed && s.project == q
  }

  lemma PoolChecks(p: Project, pages: seq<string>, counts: string -> bool, threads: nat, schedule: seq<nat>,
                   problems: set<string>, selected: set<string>)
    requires ChecksTo(p, pages, counts, threads, schedule, problems, selected)
    ensures problems == Problems(p) && selected == Selected(p)
  {
    hide Lists, AllDone, CheckWork, PoolRun, Problems, Selected;
    CheckedInParallel(p, pages, counts, threads, schedule);
  }

  lemma PoolBuilds(p: Project, names: seq<string>, written: string -> nat, threads: nat, schedule: seq<nat>,
                   failed: set<string>, q: Project)
    returns (jobs: seq<Job>)
    requires WellTracked(p) && Lists(names, Selected(p))
    requires BuildsTo(p, names, written, threads, schedule, failed, q)
    ensures JobsFor(p, jobs) && forall job | job in jobs :: job.name in p.pages
    ensures q == BuildAll(p, jobs)
    ensures failed == Selected(p) - (set name | name in Selected(p) && Build(p, name).Ok?)
  {
    hide Lists, AllDone, BuildRun, Timely, Selected, TimelyJob, JobsFor, Build;
    jobs := BuiltInParallel(p, names, written, threads, schedule);
  }

  lemma NoneFailedOf(p: Project, jobs: seq<Job>)
    requires JobsFor(p, jobs)
    requires {} == Selected(p) - (set name | name in Selected(p) && Build(p, name).Ok?)
    ensures forall job | job in jobs :: job.name in p.pages
    ensures NoneFailed(p, jobs)
  {
    hide TimelyJob, Build, Check;
    forall job | job in jobs
      ensures Build(p, job.name).Ok?
    {
      assert job.name !in Selected(p) - (set name | name in Selected(p) && Build(p, name).Ok?);
    }
  }

  lemma RunIsWellTracked(states: seq<Project>, steps: seq<Step>)
    requires IsRun(states, steps)
    ensures WellTracked(states[|steps|])
  {
    RunsAreSound(states, steps, |steps|);
  }

  /**
   When incremental equals clean, with both pools. After any run, check and build in parallel
   with any number of threads under any schedules. If no page was a problem and none failed,
   then in the project the builders leave, a page's output is what a from-scratch build gives
   exactly when the page was selected or its title since it was last built makes no difference.
   */
  lemma ParallelEqualsClean(states: seq<Project>, steps: seq<Step>, p: Project,
                            pages: seq<string>, counts: string -> bool, checkers: nat, checking: seq<nat>,
                            selected: seq<string>, written: string -> nat, builders: nat, building: seq<nat>,
                            q: Project)
    requires IsRun(states, steps) && p == states[|steps|]
    requires ChecksTo(p, pages, counts, checkers, checking, {}, Names(selected))
    requires Lists(selected, Names(selected))
    requires BuildsTo(p, selected, written, builders, building, {}, q)
    ensures q.pages == p.pages
    ensures forall name | name in p.pages :: HasCleanOutput(q, name) <==> name in Selected(p) || TitleUnseen(p, name)
  {
    hide *;
    RunIsWellTracked(states, steps);
    PoolChecks(p, pages, counts, checkers, checking, {}, Names(selected));
    var jobs := PoolBuilds(p, selected, written, builders, building, {}, q);
    NoneFailedOf(p, jobs);
    IncrementalEqualsClean(states, steps, jobs);
  }
}
