/**
 The pool of build_threads with the project they share. Each thread goes through the loop of
 module WorkPool, and where that processes a page it reads the page's files one by one,
 looking each up in checkedHashFile under its lock and writing the hash files it is first to
 claim, then writes the output and the info file. Threads interleave between any two of these
 steps. When all have stopped the project is as building the same pages one after another
 leaves it, in the order their results were recorded.
 */
module BuildPool {
  import opened Expansion
  import opened Incremental
  import opened InputGraph
  import opened Quoted
  import opened Results
  import opened Templates
  import opened WorkPool

  /** Where a thread is in building its page; rest are the files it has still to read. */
  datatype Task =
    | Idle
    | Reading(rest: seq<string>)
    | Hashing(path: string, rest: seq<string>)
    | Writing(built: Built)
    | Informing(built: Built)
    | Returned(ok: bool)

  datatype Builders = Builders(pool: Pool, project: Project, tasks: seq<Task>)

  function ReadsOf(p: Project, name: string): (paths: seq<string>)
    requires name in p.pages
    ensures forall path | path in paths :: path in p.sources
  {
    FilesRead(Texts(p.sources), p.pages[name].page)
  }

  /** What build_thread does with each page, as far as the shared sets go. */
  function BuildWork(p: Project, names: seq<string>): Work {
    Work(names, name => if name in p.pages && Build(p, name).Ok? then Second else First, _ => true)
  }

  /** The same for a thread that has its result: only whether this one is built matters. */
  function TurnWork(names: seq<string>, task: Task): Work {
    Work(names, _ => if task == Returned(true) then Second else First, _ => true)
  }

  predicate InBounds(names: seq<string>, s: Builders) {
    && |s.tasks| == |s.pool.pcs|
    && (forall name | name in names :: name in s.project.pages)
    && (forall t | 0 <= t < |s.pool.pcs| && Held(s.pool.pcs[t]).Some? :: Held(s.pool.pcs[t]).value < |names|)
  }

  function StartBuilding(p: Project, threads: nat): Builders {
    Builders(Start(threads), p, seq(threads, _ => Idle))
  }

  /** A step of the loop around build. */
  function PoolStep(names: seq<string>, s: Builders, t: nat): Pool
    requires t < |s.pool.pcs| && InBounds(names, s)
  {
    WorkPool.Step(TurnWork(names, s.tasks[t]), s.pool, t)
  }

  /** One step of thread t. */
  function Step(names: seq<string>, written: string -> nat, s: Builders, t: nat): Builders
    requires t < |s.pool.pcs| && InBounds(names, s)
  {
    match s.pool.pcs[t]
    case Unlock(item) =>
      s.(pool := PoolStep(names, s, t), tasks := s.tasks[t := Reading(ReadsOf(s.project, names[item]))])
    case Process(item) =>
      if s.tasks[t].Returned? then s.(pool := PoolStep(names, s, t))
      else Turn(names[item], written(names[item]), s, t)
    case Record(_) => s.(pool := PoolStep(names, s, t), tasks := s.tasks[t := Idle])
    case _ => s.(pool := PoolStep(names, s, t))
  }

  /** A step of build itself. */
  function Turn(name: string, written: nat, s: Builders, t: nat): Builders
    requires t < |s.tasks| && name in s.project.pages
  {
    var p := s.project;
    var tracked := p.pages[name];
    match s.tasks[t]
    case Reading(rest) =>
      if rest == [] then
        s.(tasks := s.tasks[t := match Build(p, name) case Ok(built) => Writing(built) case Err(_) => Returned(false)])
      else if p.mode.Modified? || rest[0] in p.checked then s.(tasks := s.tasks[t := Reading(rest[1..])])
      else
        s.(project := p.(checked := p.checked + {rest[0]}), tasks := s.tasks[t := Hashing(rest[0], rest[1..])])
    case Hashing(path, rest) =>
      s.(project := if path in p.sources then p.(hashes := p.hashes[path := p.hash(p.sources[path].text)]) else p,
         tasks := s.tasks[t := Reading(rest)])
    case Writing(built) =>
      s.(project := p.(outputs := p.outputs[tracked.output := built.output]), tasks := s.tasks[t := Informing(built)])
    case Informing(built) =>
      var info := Info(name, Unquote(tracked.page.title), tracked.page.template, built.dependencies, written);
      s.(project := p.(infos := p.infos[tracked.output := info],
                       builtAs := p.builtAs[tracked.output := tracked.page.title]),
         tasks := s.tasks[t := Returned(true)])
    case _ => s
  }

  // ---- What a set of built pages leaves ----

  /** What no build changes. */
  ghost predicate SameSite(p: Project, q: Project) {
    q.pages == p.pages && q.sources == p.sources && q.mode == p.mode && q.hash == p.hash
  }

  /** The outputs the pages among the names that build are written to. */
  predicate IsTarget(p: Project, names: set<string>, output: string) {
    exists name | name in names :: name in p.pages && Build(p, name).Ok? && p.pages[name].output == output
  }

  predicate IsRead(p: Project, names: set<string>, path: string) {
    exists name | name in names :: name in p.pages && path in ReadsOf(p, name)
  }

  ghost predicate SameAt<T>(a: map<string, T>, b: map<string, T>, key: string) {
    (key in a <==> key in b) && (key in a ==> a[key] == b[key])
  }

  /** Nothing but the outputs of these pages has been written. */
  ghost predicate OthersKept(p: Project, names: set<string>, q: Project) {
    forall output | !IsTarget(p, names, output) :: SameFiles(p, q, output)
  }

  /** The output file and its info file are as they were. */
  ghost predicate SameFiles(p: Project, q: Project, output: string) {
    SameAt(q.outputs, p.outputs, output) && SameAt(q.infos, p.infos, output) && SameAt(q.builtAs, p.builtAs, output)
  }

  predicate OutputWritten(p: Project, q: Project, name: string) {
    && name in p.pages && Build(p, name).Ok?
    && var output := p.pages[name].output; output in q.outputs && q.outputs[output] == Build(p, name).value.output
  }

  predicate InfoWritten(p: Project, written: string -> nat, q: Project, name: string) {
    && name in p.pages && Build(p, name).Ok?
    && var output, page := p.pages[name].output, p.pages[name].page;
       && output in q.infos && output in q.builtAs && q.builtAs[output] == page.title
       && q.infos[output] == Info(name, Unquote(page.title), page.template, Build(p, name).value.dependencies,
           written(name))
  }

  predicate HashWritten(q: Project, path: string) {
    path in q.sources && path in q.hashes && q.hashes[path] == q.hash(q.sources[path].text)
  }

  ghost predicate HashesSettled(p: Project, names: set<string>, q: Project) {
    if p.mode.Modified? then q.hashes == p.hashes && q.checked == p.checked
    else
      && (forall path :: path in q.checked <==> path in p.checked || IsRead(p, names, path))
      && (forall path | path in q.checked && path !in p.checked :: HashWritten(q, path))
      && (forall path | path !in q.checked || path in p.checked :: SameAt(q.hashes, p.hashes, path))
  }

  /** All that building these pages leaves, whatever the order. */
  ghost predicate Settled(p: Project, names: set<string>, written: string -> nat, q: Project) {
    && SameSite(p, q)
    && OthersKept(p, names, q)
    && (forall name | name in names && name in p.pages && Build(p, name).Ok? ::
          OutputWritten(p, q, name) && InfoWritten(p, written, q, name))
    && HashesSettled(p, names, q)
  }

  lemma SettledIsUnique(p: Project, names: set<string>, written: string -> nat, q: Project, r: Project)
    requires Settled(p, names, written, q) && Settled(p, names, written, r)
    ensures q == r
  {
    hide BuildPage, ReadsOf, IsRead;
    forall output
      ensures SameAt(q.outputs, r.outputs, output) && SameAt(q.infos, r.infos, output)
                && SameAt(q.builtAs, r.builtAs, output)
    {
      if IsTarget(p, names, output) {
        var name :| name in names && name in p.pages && Build(p, name).Ok? && p.pages[name].output == output;
        assert OutputWritten(p, q, name) && OutputWritten(p, r, name);
        assert InfoWritten(p, written, q, name) && InfoWritten(p, written, r, name);
      } else {
        assert SameFiles(p, q, output) && SameFiles(p, r, output);
      }
    }
    SameMap(q.outputs, r.outputs);
    SameMap(q.infos, r.infos);
    SameMap(q.builtAs, r.builtAs);
    if p.mode.Hybrid? {
      assert q.checked == r.checked;
      forall path
        ensures SameAt(q.hashes, r.hashes, path)
      {
        if path in q.checked && path !in p.checked {
          assert HashWritten(q, path) && HashWritten(r, path);
        }
      }
      SameMap(q.hashes, r.hashes);
    }
  }

  lemma SameMap<T>(a: map<string, T>, b: map<string, T>)
    requires forall key :: SameAt(a, b, key)
    ensures a == b
  {
    forall key
      ensures key in a <==> key in b
    {
      assert SameAt(a, b, key);
    }
    forall key | key in a
      ensures a[key] == b[key]
    {
      assert SameAt(a, b, key);
    }
  }

  // ---- Building one after another ----

  function Names(names: seq<string>): set<string> {
    set name | name in names
  }

  function JobOf(p: Project, written: string -> nat, name: string): Job
    requires name in p.pages
  {
    Job(name, written(name), set path | path in ReadsOf(p, name))
  }

  function JobsIn(p: Project, written: string -> nat, names: seq<string>): (jobs: seq<Job>)
    requires forall name | name in names :: name in p.pages
    ensures |jobs| == |names| && forall i | 0 <= i < |names| :: jobs[i] == JobOf(p, written, names[i])
  {
    seq(|names|, i requires 0 <= i < |names| => JobOf(p, written, names[i]))
  }

  lemma JobsInSnoc(p: Project, written: string -> nat, names: seq<string>, name: string)
    requires name in p.pages && forall other | other in names :: other in p.pages
    ensures forall other | other in names + [name] :: other in p.pages
    ensures JobsIn(p, written, names + [name]) == JobsIn(p, written, names) + [JobOf(p, written, name)]
    ensures Names(names + [name]) == Names(names) + {name}
  {
    hide JobOf;
  }

  lemma {:induction false} SequentialSettles(p: Project, written: string -> nat, names: seq<string>)
    requires WellTracked(p) && forall name | name in names :: name in p.pages
    ensures Settled(p, Names(names), written, BuildAll(p, JobsIn(p, written, names)))
    decreases |names|
  {
    if names == [] {
      StartSettled(p, written);
      assert JobsIn(p, written, names) == [];
    } else {
      hide BuildAll, BuildOne, Settled, JobOf, JobsIn, WellTracked, Names;
      var n := |names| - 1;
      var before, name := names[..n], names[n];
      assert names == before + [name];
      SequentialSettles(p, written, before);
      JobsInSnoc(p, written, before, name);
      JobNamed(p, written, name);
      BuildAllSnoc(p, JobsIn(p, written, before), JobOf(p, written, name));
      SettlesOne(p, written, Names(before), BuildAll(p, JobsIn(p, written, before)), name);
    }
  }

  lemma JobNamed(p: Project, written: string -> nat, name: string)
    requires name in p.pages
    ensures JobOf(p, written, name).name == name
  {
  }

  lemma StartSettled(p: Project, written: string -> nat)
    ensures Settled(p, {}, written, p)
  {
    hide BuildPage, ReadsOf;
  }

  /** What building one page does to outputs, info files and hash files. */
  lemma BuildOneIs(q: Project, name: string, written: nat, touched: set<string>)
    requires name in q.pages
    ensures var r, output, page := BuildOne(q, name, written, touched), q.pages[name].output, q.pages[name].page;
            && SameSite(q, r)
            && r.hashes == Rehash(q, touched).hashes && r.checked == Rehash(q, touched).checked
            && match Build(q, name)
               case Err(_) => r.outputs == q.outputs && r.infos == q.infos && r.builtAs == q.builtAs
               case Ok(built) =>
                 && r.outputs == q.outputs[output := built.output]
                 && r.infos == q.infos[output := Info(name, Unquote(page.title), page.template, built.dependencies,
                     written)]
                 && r.builtAs == q.builtAs[output := page.title]
  {
    hide Build;
  }

  /** Between two states at most the page's own output and info file have been written, with what its build gives. */
  ghost predicate Writes(p: Project, written: string -> nat, q: Project, r: Project, name: string) {
    && name in p.pages
    && var output, page := p.pages[name].output, p.pages[name].page;
       && (|| r.outputs == q.outputs
           || (Build(p, name).Ok? && r.outputs == q.outputs[output := Build(p, name).value.output]))
       && ((r.infos == q.infos && r.builtAs == q.builtAs)
           || (Build(p, name).Ok?
               && r.infos == q.infos[output := Info(name, Unquote(page.title), page.template,
                   Build(p, name).value.dependencies, written(name))]
               && r.builtAs == q.builtAs[output := page.title]))
  }

  lemma WritesKeepOthers(p: Project, written: string -> nat, names: set<string>, q: Project, r: Project, name: string)
    requires Writes(p, written, q, r, name) && name in names && OthersKept(p, names, q)
    ensures OthersKept(p, names, r)
  {
    assert name in p.pages;
    hide IsTarget, SameFiles, Writes;
    forall output | !IsTarget(p, names, output)
      ensures SameFiles(p, r, output)
    {
      NoTarget(p, names, name, output);
      assert SameFiles(p, q, output);
      FileKept(p, written, q, r, name, output);
    }
  }

  lemma FileKept(p: Project, written: string -> nat, q: Project, r: Project, name: string, output: string)
    requires Writes(p, written, q, r, name) && SameFiles(p, q, output)
    requires name in p.pages && (Build(p, name).Ok? ==> p.pages[name].output != output)
    ensures SameFiles(p, r, output)
  {
    hide Build;
  }

  lemma NoTarget(p: Project, names: set<string>, name: string, output: string)
    requires name in names && name in p.pages && !IsTarget(p, names, output)
    ensures Build(p, name).Ok? ==> p.pages[name].output != output
  {
    hide Build;
  }

  lemma MoreTargets(p: Project, names: set<string>, q: Project, name: string)
    requires OthersKept(p, names, q)
    ensures OthersKept(p, names + {name}, q)
  {
    hide SameFiles, Build;
    forall output | !IsTarget(p, names + {name}, output)
      ensures SameFiles(p, q, output)
    {
      assert !IsTarget(p, names, output);
    }
  }

  lemma WrittenStays(p: Project, written: string -> nat, q: Project, r: Project, name: string, other: string)
    requires WellTracked(p) && Writes(p, written, q, r, name) && name in p.pages
    ensures OutputWritten(p, q, other) ==> OutputWritten(p, r, other)
    ensures InfoWritten(p, written, q, other) ==> InfoWritten(p, written, r, other)
  {
    if OutputWritten(p, q, other) {
      OutputStays(p, written, q, r, name, other);
    }
    hide OutputWritten;
    if InfoWritten(p, written, q, other) {
      InfoStays(p, written, q, r, name, other);
    }
    hide *;
  }

  lemma OutputStays(p: Project, written: string -> nat, q: Project, r: Project, name: string, other: string)
    requires WellTracked(p) && Writes(p, written, q, r, name) && name in p.pages && OutputWritten(p, q, other)
    ensures OutputWritten(p, r, other)
  {
    assert other in p.pages && other != name ==> p.pages[other].output != p.pages[name].output;
    hide Build, WellTracked, InfoWritten;
  }

  lemma InfoStays(p: Project, written: string -> nat, q: Project, r: Project, name: string, other: string)
    requires WellTracked(p) && Writes(p, written, q, r, name) && name in p.pages && InfoWritten(p, written, q, other)
    ensures InfoWritten(p, written, r, other)
  {
    assert other in p.pages && other != name ==> p.pages[other].output != p.pages[name].output;
    hide Build, WellTracked, OutputWritten;
  }

  /** One page more. */
  lemma SettlesOne(p: Project, written: string -> nat, names: set<string>, q: Project, name: string)
    requires WellTracked(p) && name in p.pages && Settled(p, names, written, q)
    ensures var job := JobOf(p, written, name);
            job.name in q.pages && Settled(p, names + {name}, written, BuildOne(q, job.name, job.written, job.touched))
  {
    var job := JobOf(p, written, name);
    var r := BuildOne(q, job.name, job.written, job.touched);
    assert Build(q, name) == Build(p, name);
    BuildOneIs(q, name, job.written, job.touched);
    assert Writes(p, written, q, r, name);
    MoreTargets(p, names, q, name);
    WritesKeepOthers(p, written, names + {name}, q, r, name);
    HashesOne(p, written, names, q, name);
    hide Build, ReadsOf, BuildOne, Rehash, OthersKept, HashesSettled, OutputWritten, InfoWritten, Writes;
    forall other | other in names + {name} && other in p.pages && Build(p, other).Ok?
      ensures OutputWritten(p, r, other) && InfoWritten(p, written, r, other)
    {
      if other == name {
        NameWritten(p, written, q, name, job.touched);
      } else {
        assert OutputWritten(p, q, other) && InfoWritten(p, written, q, other);
        WrittenStays(p, written, q, r, name, other);
      }
    }
  }

  lemma NameWritten(p: Project, written: string -> nat, q: Project, name: string, touched: set<string>)
    requires name in p.pages && SameSite(p, q) && Build(p, name).Ok?
    ensures var r := BuildOne(q, name, written(name), touched);
            OutputWritten(p, r, name) && InfoWritten(p, written, r, name)
  {
    BuildOneIs(q, name, written(name), touched);
    assert Build(q, name) == Build(p, name);
    hide Build, BuildOne, Rehash;
  }

  /** Rehashing, path by path. */
  lemma RehashIs(q: Project, touched: set<string>, path: string)
    requires q.mode.Hybrid? && touched <= q.sources.Keys
    ensures var r := Rehash(q, touched);
            && r.checked == q.checked + touched
            && if path in touched && path !in q.checked then HashWritten(r, path) else SameAt(r.hashes, q.hashes, path)
  {
  }

  lemma HashesOne(p: Project, written: string -> nat, names: set<string>, q: Project, name: string)
    requires name in p.pages && SameSite(p, q) && HashesSettled(p, names, q)
    ensures var job := JobOf(p, written, name);
            HashesSettled(p, names + {name}, BuildOne(q, job.name, job.written, job.touched))
  {
    var job := JobOf(p, written, name);
    var r := BuildOne(q, job.name, job.written, job.touched);
    BuildOneIs(q, name, job.written, job.touched);
    hide Build, BuildOne, ReadsOf, HashesSettled;
    HashesRenewed(p, names, q, r, job.touched, name);
  }

  lemma HashesRenewed(p: Project, names: set<string>, q: Project, r: Project, touched: set<string>, name: string)
    requires name in p.pages && SameSite(p, q) && SameSite(p, r) && HashesSettled(p, names, q)
    requires r.hashes == Rehash(q, touched).hashes && r.checked == Rehash(q, touched).checked
    requires touched == set path | path in ReadsOf(p, name)
    ensures HashesSettled(p, names + {name}, r)
  {
    hide Build, ReadsOf, IsRead, HashWritten, SameAt;
    if p.mode.Hybrid? {
      assert touched <= q.sources.Keys;
      RehashIs(q, touched, "");
      hide Rehash;
      forall path
        ensures path in r.checked <==> path in p.checked || IsRead(p, names + {name}, path)
        ensures path in r.checked && path !in p.checked ==> HashWritten(r, path)
        ensures path !in r.checked || path in p.checked ==> SameAt(r.hashes, p.hashes, path)
      {
        MoreRead(p, names, name, path);
        HashAt(p, names, q, r, touched, path);
      }
    }
  }

  lemma HashAt(p: Project, names: set<string>, q: Project, r: Project, touched: set<string>, path: string)
    requires p.mode.Hybrid? && SameSite(p, q) && SameSite(p, r) && HashesSettled(p, names, q)
               && touched <= q.sources.Keys
    requires r.hashes == Rehash(q, touched).hashes && r.checked == Rehash(q, touched).checked
    ensures path in r.checked && path !in p.checked ==> HashWritten(r, path)
    ensures path !in r.checked || path in p.checked ==> SameAt(r.hashes, p.hashes, path)
  {
    RehashIs(q, touched, path);
    assert path in q.checked && path !in p.checked ==> HashWritten(q, path);
    assert path !in q.checked || path in p.checked ==> SameAt(q.hashes, p.hashes, path);
    hide Rehash, IsRead, HashesSettled;
  }

  lemma MoreRead(p: Project, names: set<string>, name: string, path: string)
    requires name in p.pages
    ensures IsRead(p, names + {name}, path) <==> IsRead(p, names, path) || path in ReadsOf(p, name)
  {
    hide ReadsOf;
  }

  // ---- Every step keeps the invariant ----

  /** The pool is in order, every thread's item has a page, and the site is as it was. */
  ghost predicate PoolInv(p: Project, names: seq<string>, s: Builders) {
    WorkPool.Inv(BuildWork(p, names), s.pool) && InBounds(names, s) && SameSite(p, s.project)
  }

  /** A thread has a task exactly while it processes a page, and its result is that page's. */
  ghost predicate TaskOk(p: Project, names: seq<string>, pc: Pc, task: Task) {
    match task
    case Idle => !pc.Process? && !pc.Record?
    case Reading(_) => pc.Process?
    case Hashing(path, _) => pc.Process? && p.mode.Hybrid? && path in p.sources && path !in p.checked
    case Writing(built) => pc.Process? && HasResult(p, names, pc, Ok(built))
    case Informing(built) => pc.Process? && HasResult(p, names, pc, Ok(built))
    case Returned(ok) => (pc.Process? || pc.Record?) && IsResult(p, names, pc, ok)
  }

  ghost predicate HasResult(p: Project, names: seq<string>, pc: Pc, r: Result<Built, Error>) {
    Held(pc).Some? && Held(pc).value < |names| && names[Held(pc).value] in p.pages
        && Build(p, names[Held(pc).value]) == r
  }

  ghost predicate IsResult(p: Project, names: seq<string>, pc: Pc, ok: bool) {
    Held(pc).Some? && Held(pc).value < |names| && names[Held(pc).value] in p.pages
        && Build(p, names[Held(pc).value]).Ok? == ok
  }

  ghost predicate TasksInv(p: Project, names: seq<string>, s: Builders)
    requires |s.tasks| == |s.pool.pcs|
  {
    forall t | 0 <= t < |s.tasks| :: TaskOk(p, names, s.pool.pcs[t], s.tasks[t])
  }

  /** What a thread has written so far is there. */
  ghost predicate WrittenBy(p: Project, names: seq<string>, written: string -> nat, q: Project, pc: Pc, task: Task) {
    task.Informing? || task == Returned(true) ==>
      && Held(pc).Some? && Held(pc).value < |names|
      && OutputWritten(p, q, names[Held(pc).value])
      && (task == Returned(true) ==> InfoWritten(p, written, q, names[Held(pc).value]))
  }

  /** Only pages that build have been written, and those recorded as built completely. */
  ghost predicate WritesInv(p: Project, names: seq<string>, written: string -> nat, s: Builders)
    requires |s.tasks| == |s.pool.pcs|
  {
    && OthersKept(p, Names(names), s.project)
    && (forall name | name in s.pool.second ::
          OutputWritten(p, s.project, name) && InfoWritten(p, written, s.project, name))
    && (forall t | 0 <= t < |s.tasks| :: WrittenBy(p, names, written, s.project, s.pool.pcs[t], s.tasks[t]))
  }

  function Rest(task: Task): seq<string> {
    match task
    case Reading(rest) => rest
    case Hashing(_, rest) => rest
    case _ => []
  }

  /** The files of a thread's page are checked or still to be read. */
  ghost predicate ReadBy(p: Project, names: seq<string>, checked: set<string>, pc: Pc, task: Task) {
    !task.Idle? ==>
      && Held(pc).Some? && Held(pc).value < |names| && names[Held(pc).value] in p.pages
      && var files := ReadsOf(p, names[Held(pc).value]);
         && (forall path | path in files :: path in checked || path in Rest(task))
         && (forall path | path in Rest(task) :: path in files)
         && (task.Hashing? ==> task.path in checked)
  }

  ghost predicate HashedBy(s: Builders, path: string) {
    exists t :: 0 <= t < |s.tasks| && s.tasks[t].Hashing? && s.tasks[t].path == path
  }

  /** Checked files are those read so far; each newly checked one is hashed, or about to be. */
  ghost predicate HashInv(p: Project, names: seq<string>, s: Builders)
    requires |s.tasks| == |s.pool.pcs|
  {
    var q := s.project;
    && p.checked <= q.checked
    && (forall path | path in q.checked :: path in p.checked || IsRead(p, Names(names), path))
    && (forall path | path in q.checked && path !in p.checked :: HashWritten(q, path) || HashedBy(s, path))
    && (forall path | path !in q.checked || path in p.checked :: SameAt(q.hashes, p.hashes, path))
  }

  /** Every page recorded or being read has its files checked or to come. */
  ghost predicate ReadsInv(p: Project, names: seq<string>, s: Builders)
    requires |s.tasks| == |s.pool.pcs|
  {
    && (forall i | 0 <= i < |s.pool.log| :: Covered(p, names, s.project.checked, s.pool.log[i]))
    && (forall t | 0 <= t < |s.tasks| :: ReadBy(p, names, s.project.checked, s.pool.pcs[t], s.tasks[t]))
  }

  ghost predicate Covered(p: Project, names: seq<string>, checked: set<string>, item: nat) {
    && item < |names| && names[item] in p.pages
    && forall path | path in ReadsOf(p, names[item]) :: path in checked
  }

  ghost predicate Inv(p: Project, names: seq<string>, written: string -> nat, s: Builders) {
    && PoolInv(p, names, s)
    && TasksInv(p, names, s)
    && WritesInv(p, names, written, s)
    && (if p.mode.Hybrid? then HashInv(p, names, s) && ReadsInv(p, names, s)
        else s.project.hashes == p.hashes && s.project.checked == p.checked)
  }

  /** The thread's own result files the page as the pool's work says. */
  lemma PoolStepIs(p: Project, names: seq<string>, s: Builders, t: nat)
    requires t < |s.tasks| && PoolInv(p, names, s) && TaskOk(p, names, s.pool.pcs[t], s.tasks[t])
    ensures PoolStep(names, s, t) == WorkPool.Step(BuildWork(p, names), s.pool, t)
  {
    hide Build, CounterInv, BelowInv, OnceInv, CoverInv, ResultInv, MutexInv;
  }

  /** A step moves its own thread only, and changes no page or source. */
  lemma StepIsLocal(names: seq<string>, written: string -> nat, s: Builders, t: nat)
    requires t < |s.tasks| && InBounds(names, s)
    ensures var s' := Step(names, written, s, t);
            && |s'.tasks| == |s.tasks| && |s'.pool.pcs| == |s.pool.pcs|
            && (forall u | 0 <= u < |s.tasks| && u != t :: s'.tasks[u] == s.tasks[u] && s'.pool.pcs[u] == s.pool.pcs[u])
            && SameSite(s.project, s'.project)
            && (s'.pool == s.pool || s'.pool == PoolStep(names, s, t))
  {
    PoolStepIsLocal(names, s, t);
    hide Build, ReadsOf, PoolStep;
  }

  lemma PoolStepIsLocal(names: seq<string>, s: Builders, t: nat)
    requires t < |s.tasks| && InBounds(names, s)
    ensures var pool := PoolStep(names, s, t);
            |pool.pcs| == |s.pool.pcs| && forall u | 0 <= u < |s.tasks| && u != t :: pool.pcs[u] == s.pool.pcs[u]
  {
    hide TurnWork;
  }

  lemma PoolStepKeeps(p: Project, names: seq<string>, written: string -> nat, s: Builders, t: nat)
    requires t < |s.tasks| && PoolInv(p, names, s) && TaskOk(p, names, s.pool.pcs[t], s.tasks[t])
    ensures PoolInv(p, names, Step(names, written, s, t))
  {
    PoolStepIs(p, names, s, t);
    StepIsLocal(names, written, s, t);
    WorkPool.StepKeeps(BuildWork(p, names), s.pool, t);
    HeldInBounds(BuildWork(p, names), WorkPool.Step(BuildWork(p, names), s.pool, t));
    HeldInBounds(BuildWork(p, names), s.pool);
    hide WorkPool.Inv, WorkPool.Step, Build, TaskOk, PoolStep, ReadsOf, Step, Held;
  }

  lemma HeldInBounds(w: Work, s: Pool)
    requires WorkPool.Inv(w, s)
    ensures forall t | 0 <= t < |s.pcs| && Held(s.pcs[t]).Some? :: Held(s.pcs[t]).value < |w.names|
  {
  }

  lemma TaskKept(p: Project, names: seq<string>, written: string -> nat, s: Builders, t: nat)
    requires t < |s.tasks| && InBounds(names, s) && SameSite(p, s.project)
    requires TaskOk(p, names, s.pool.pcs[t], s.tasks[t]) && HashesToDo(p, s, t)
    ensures var s' := Step(names, written, s, t); TaskOk(p, names, s'.pool.pcs[t], s'.tasks[t])
  {
    hide Build, ReadsOf;
    var name := if s.pool.pcs[t].Process? then names[s.pool.pcs[t].item] else "";
    assert name in p.pages ==> Build(s.project, name) == Build(p, name) by {
      SameBuild(p, s.project);
    }
  }

  lemma SameBuild(p: Project, q: Project)
    requires SameSite(p, q)
    ensures forall name | name in p.pages :: Build(q, name) == Build(p, name) && ReadsOf(q, name) == ReadsOf(p, name)
  {
    hide BuildPage, FilesRead;
  }

  lemma TasksKept(p: Project, names: seq<string>, written: string -> nat, s: Builders, t: nat)
    requires t < |s.tasks| && PoolInv(p, names, s) && TasksInv(p, names, s) && HashesToDo(p, s, t)
    ensures |Step(names, written, s, t).tasks| == |Step(names, written, s, t).pool.pcs|
    ensures TasksInv(p, names, Step(names, written, s, t))
  {
    StepIsLocal(names, written, s, t);
    TaskKept(p, names, written, s, t);
    hide TaskOk, Step, WorkPool.Inv, InBounds, SameSite;
  }

  /** A file about to be looked up exists, and checkedHashFile has only grown. */
  ghost predicate HashesToDo(p: Project, s: Builders, t: nat)
    requires t < |s.tasks|
  {
    p.mode.Hybrid? ==> p.checked <= s.project.checked && forall path | path in Rest(s.tasks[t]) :: path in p.sources
  }

  /** Only turns of a build touch the project. */
  lemma StepProject(names: seq<string>, written: string -> nat, s: Builders, t: nat)
    requires t < |s.tasks| && InBounds(names, s)
    ensures var s', pc := Step(names, written, s, t), s.pool.pcs[t];
            if pc.Process? && !s.tasks[t].Returned? then s' == Turn(names[pc.item], written(names[pc.item]), s, t)
            else s'.project == s.project
  {
    hide Build, ReadsOf, PoolStep, Turn;
  }

  /** A turn writes nothing but its own page's output and info file. */
  lemma TurnWrites(p: Project, written: string -> nat, s: Builders, t: nat, name: string)
    requires t < |s.tasks| && SameSite(p, s.project) && name in p.pages
    requires var task := s.tasks[t]; task.Writing? || task.Informing? ==> Build(p, name) == Ok(task.built)
    ensures Writes(p, written, s.project, Turn(name, written(name), s, t).project, name)
  {
    hide Build;
  }

  lemma StepWrites(p: Project, names: seq<string>, written: string -> nat, s: Builders, t: nat)
    requires t < |s.tasks| && InBounds(names, s) && SameSite(p, s.project)
    requires TaskOk(p, names, s.pool.pcs[t], s.tasks[t])
    ensures var q, q', pc := s.project, Step(names, written, s, t).project, s.pool.pcs[t];
            || (q'.outputs == q.outputs && q'.infos == q.infos && q'.builtAs == q.builtAs)
            || (pc.Process? && Writes(p, written, q, q', names[pc.item]))
  {
    StepProject(names, written, s, t);
    hide Build, Step, Turn, Writes, IsResult;
    var pc := s.pool.pcs[t];
    if pc.Process? && !s.tasks[t].Returned? {
      TurnWrites(p, written, s, t, names[pc.item]);
    }
  }

  /** What was written stays written, and nothing else is. */
  lemma WritesStay(p: Project, names: seq<string>, written: string -> nat, s: Builders, t: nat)
    requires WellTracked(p) && t < |s.tasks| && InBounds(names, s) && SameSite(p, s.project)
    requires TaskOk(p, names, s.pool.pcs[t], s.tasks[t]) && OthersKept(p, Names(names), s.project)
    ensures var q, q' := s.project, Step(names, written, s, t).project;
            && OthersKept(p, Names(names), q')
            && (forall name | OutputWritten(p, q, name) :: OutputWritten(p, q', name))
            && (forall name | InfoWritten(p, written, q, name) :: InfoWritten(p, written, q', name))
  {
    StepWrites(p, names, written, s, t);
    var q, q', pc := s.project, Step(names, written, s, t).project, s.pool.pcs[t];
    hide Build, Step, TaskOk, IsTarget, WellTracked;
    if q'.outputs != q.outputs || q'.infos != q.infos || q'.builtAs != q.builtAs {
      hide Writes, OthersKept, OutputWritten, InfoWritten;
      WritesKeepOthers(p, written, Names(names), q, q', names[pc.item]);
      forall name
        ensures OutputWritten(p, q, name) ==> OutputWritten(p, q', name)
        ensures InfoWritten(p, written, q, name) ==> InfoWritten(p, written, q', name)
      {
        WrittenStays(p, written, q, q', names[pc.item], name);
      }
    }
  }

  lemma WrittenByKept(p: Project, names: seq<string>, written: string -> nat, s: Builders, t: nat)
    requires t < |s.tasks| && InBounds(names, s) && SameSite(p, s.project)
    requires TaskOk(p, names, s.pool.pcs[t], s.tasks[t])
    requires WrittenBy(p, names, written, s.project, s.pool.pcs[t], s.tasks[t])
    ensures var s' := Step(names, written, s, t); WrittenBy(p, names, written, s'.project, s'.pool.pcs[t], s'.tasks[t])
  {
    hide Build, ReadsOf;
  }

  /** A page newly recorded as built was written by its thread. */
  lemma NewlyBuilt(p: Project, names: seq<string>, written: string -> nat, s: Builders, t: nat, name: string)
    requires t < |s.tasks| && InBounds(names, s)
    requires TaskOk(p, names, s.pool.pcs[t], s.tasks[t])
    requires WrittenBy(p, names, written, s.project, s.pool.pcs[t], s.tasks[t])
    requires name in Step(names, written, s, t).pool.second && name !in s.pool.second
    ensures OutputWritten(p, s.project, name) && InfoWritten(p, written, s.project, name)
  {
    hide Build, ReadsOf, OutputWritten, InfoWritten;
  }

  lemma WritesKept(p: Project, names: seq<string>, written: string -> nat, s: Builders, t: nat)
    requires WellTracked(p) && t < |s.tasks| && PoolInv(p, names, s) && TasksInv(p, names, s)
    requires WritesInv(p, names, written, s)
    ensures |Step(names, written, s, t).tasks| == |Step(names, written, s, t).pool.pcs|
    ensures WritesInv(p, names, written, Step(names, written, s, t))
  {
    assert InBounds(names, s) && |s.tasks| == |s.pool.pcs|;
    hide Step, OutputWritten, InfoWritten, WorkPool.Inv, OthersKept, InBounds, SameSite, WrittenBy, TaskOk, WellTracked;
    var s' := Step(names, written, s, t);
    assert TaskOk(p, names, s.pool.pcs[t], s.tasks[t]);
    assert WrittenBy(p, names, written, s.project, s.pool.pcs[t], s.tasks[t]);
    StepIsLocal(names, written, s, t);
    WritesStay(p, names, written, s, t);
    WrittenByKept(p, names, written, s, t);
    forall name | name in s'.pool.second
      ensures OutputWritten(p, s'.project, name) && InfoWritten(p, written, s'.project, name)
    {
      if name !in s.pool.second {
        NewlyBuilt(p, names, written, s, t, name);
      }
    }
    forall u | 0 <= u < |s'.tasks| && u != t
      ensures WrittenBy(p, names, written, s'.project, s'.pool.pcs[u], s'.tasks[u])
    {
      assert WrittenBy(p, names, written, s.project, s.pool.pcs[u], s.tasks[u]);
      WrittenByGrows(p, names, written, s.project, s'.project, s.pool.pcs[u], s.tasks[u]);
    }
  }

  lemma WrittenByGrows(p: Project, names: seq<string>, written: string -> nat, q: Project, q': Project, pc: Pc,
                       task: Task)
    requires WrittenBy(p, names, written, q, pc, task)
    requires forall name | OutputWritten(p, q, name) :: OutputWritten(p, q', name)
    requires forall name | InfoWritten(p, written, q, name) :: InfoWritten(p, written, q', name)
    ensures WrittenBy(p, names, written, q', pc, task)
  {
    hide OutputWritten, InfoWritten;
  }

  /** What a step does to hash files and checkedHashFile. */
  ghost predicate CheckStep(p: Project, names: seq<string>, q: Project, q': Project, task: Task, task': Task) {
    if task.Hashing? then
      && task.path in q.checked && task.path !in p.checked && task.path in q.sources
      && q'.checked == q.checked
      && q'.hashes == q.hashes[task.path := q.hash(q.sources[task.path].text)]
    else
      && q'.hashes == q.hashes
      && (q'.checked == q.checked
          || (task'.Hashing? && q'.checked == q.checked + {task'.path} && IsRead(p, Names(names), task'.path)))
  }

  lemma TurnChecks(p: Project, names: seq<string>, written: nat, s: Builders, t: nat, name: string)
    requires t < |s.tasks| && SameSite(p, s.project) && name in p.pages && name in names && p.mode.Hybrid?
    requires var task := s.tasks[t];
             && (task.Hashing? ==> task.path in s.project.checked && task.path !in p.checked && task.path in p.sources)
             && (forall path | path in Rest(task) :: path in ReadsOf(p, name))
    ensures var s' := Turn(name, written, s, t); CheckStep(p, names, s.project, s'.project, s.tasks[t], s'.tasks[t])
  {
    hide Build, ReadsOf;
  }

  lemma NextCheck(p: Project, names: seq<string>, written: string -> nat, s: Builders, t: nat)
    requires p.mode.Hybrid? && t < |s.tasks| && InBounds(names, s) && SameSite(p, s.project)
    requires TaskOk(p, names, s.pool.pcs[t], s.tasks[t])
    requires ReadBy(p, names, s.project.checked, s.pool.pcs[t], s.tasks[t])
    ensures var s' := Step(names, written, s, t); CheckStep(p, names, s.project, s'.project, s.tasks[t], s'.tasks[t])
  {
    StepProject(names, written, s, t);
    hide Build, ReadsOf, Step, Turn, HasResult, IsResult;
    var pc := s.pool.pcs[t];
    if pc.Process? && !s.tasks[t].Returned? {
      TurnChecks(p, names, written(names[pc.item]), s, t, names[pc.item]);
    }
  }

  lemma CheckedKept(p: Project, names: seq<string>, q: Project, q': Project, task: Task, task': Task)
    requires CheckStep(p, names, q, q', task, task') && p.checked <= q.checked
    requires forall path | path in q.checked :: path in p.checked || IsRead(p, Names(names), path)
    requires forall path | path !in q.checked || path in p.checked :: SameAt(q.hashes, p.hashes, path)
    ensures p.checked <= q'.checked
    ensures forall path | path in q'.checked :: path in p.checked || IsRead(p, Names(names), path)
    ensures forall path | path !in q'.checked || path in p.checked :: SameAt(q'.hashes, p.hashes, path)
  {
    hide IsRead;
  }

  lemma HashedKept(p: Project, names: seq<string>, s: Builders, s': Builders, t: nat, path: string)
    requires t < |s.tasks| == |s'.tasks| && SameSite(s.project, s'.project)
    requires CheckStep(p, names, s.project, s'.project, s.tasks[t], s'.tasks[t])
    requires forall u | 0 <= u < |s.tasks| && u != t :: s'.tasks[u] == s.tasks[u]
    requires path in s'.project.checked
    requires path in s.project.checked ==> HashWritten(s.project, path) || HashedBy(s, path)
    ensures HashWritten(s'.project, path) || HashedBy(s', path)
  {
    hide IsRead;
    if path !in s.project.checked {
      assert s'.tasks[t].Hashing? && s'.tasks[t].path == path;
    } else if !HashWritten(s'.project, path) {
      assert HashedBy(s, path);
      var u :| 0 <= u < |s.tasks| && s.tasks[u].Hashing? && s.tasks[u].path == path;
      assert u != t && s'.tasks[u] == s.tasks[u];
    }
  }

  lemma HashesKept(p: Project, names: seq<string>, written: string -> nat, s: Builders, t: nat)
    requires p.mode.Hybrid? && t < |s.tasks| && InBounds(names, s) && SameSite(p, s.project)
    requires TaskOk(p, names, s.pool.pcs[t], s.tasks[t]) && HashInv(p, names, s)
    requires ReadBy(p, names, s.project.checked, s.pool.pcs[t], s.tasks[t])
    ensures |Step(names, written, s, t).tasks| == |Step(names, written, s, t).pool.pcs|
    ensures HashInv(p, names, Step(names, written, s, t))
  {
    var s' := Step(names, written, s, t);
    StepIsLocal(names, written, s, t);
    NextCheck(p, names, written, s, t);
    hide Step, InBounds, TaskOk, ReadBy, IsRead, PoolStep, CheckStep, HashWritten, HashedBy, SameAt;
    CheckedKept(p, names, s.project, s'.project, s.tasks[t], s'.tasks[t]);
    forall path | path in s'.project.checked && path !in p.checked
      ensures HashWritten(s'.project, path) || HashedBy(s', path)
    {
      HashedKept(p, names, s, s', t, path);
    }
  }

  lemma ReadByKept(p: Project, names: seq<string>, written: string -> nat, s: Builders, t: nat)
    requires p.mode.Hybrid? && t < |s.tasks| && InBounds(names, s) && SameSite(p, s.project)
    requires TaskOk(p, names, s.pool.pcs[t], s.tasks[t])
    requires ReadBy(p, names, s.project.checked, s.pool.pcs[t], s.tasks[t])
    ensures var s' := Step(names, written, s, t);
            && s.project.checked <= s'.project.checked
            && ReadBy(p, names, s'.project.checked, s'.pool.pcs[t], s'.tasks[t])
  {
    StepProject(names, written, s, t);
    if s.pool.pcs[t].Process? && !s.tasks[t].Returned? {
      hide Build, ReadsOf, Step, Turn, HasResult, IsResult, SameSite;
      TurnReads(p, written(names[s.pool.pcs[t].item]), s, t, names[s.pool.pcs[t].item]);
    } else {
      hide Build, ReadsOf, Turn, HasResult, IsResult;
      PoolStepReads(p, names, written, s, t);
    }
  }

  /** A step of the pool sets its thread's files to be read when it starts a page, and leaves them alone otherwise. */
  lemma PoolStepReads(p: Project, names: seq<string>, written: string -> nat, s: Builders, t: nat)
    requires t < |s.tasks| && InBounds(names, s) && SameSite(p, s.project)
    requires !(s.pool.pcs[t].Process? && !s.tasks[t].Returned?)
    requires TaskOk(p, names, s.pool.pcs[t], s.tasks[t])
    requires ReadBy(p, names, s.project.checked, s.pool.pcs[t], s.tasks[t])
    ensures var s' := Step(names, written, s, t); ReadBy(p, names, s.project.checked, s'.pool.pcs[t], s'.tasks[t])
  {
    SameBuild(p, s.project);
    hide Build, ReadsOf, TurnWork, Turn, HasResult, IsResult, SameSite;
  }

  /** A turn of build takes at most one file off those still to be read, and that is checked then. */
  lemma TurnReads(p: Project, written: nat, s: Builders, t: nat, name: string)
    requires p.mode.Hybrid? && t < |s.tasks| && SameSite(p, s.project) && name in p.pages
    requires !s.tasks[t].Idle?
    ensures var s' := Turn(name, written, s, t);
            && s'.pool == s.pool
            && s.project.checked <= s'.project.checked
            && (forall path | path in Rest(s.tasks[t]) :: path in Rest(s'.tasks[t]) || path in s'.project.checked)
            && (forall path | path in Rest(s'.tasks[t]) :: path in Rest(s.tasks[t]))
            && (s'.tasks[t].Hashing? ==> s'.tasks[t].path in s'.project.checked)
  {
    hide Build, ReadsOf;
  }

  /** The log grows by the page a thread records, whose files have been read. */
  lemma LogStep(p: Project, names: seq<string>, written: string -> nat, s: Builders, t: nat)
    requires t < |s.tasks| && InBounds(names, s)
    requires TaskOk(p, names, s.pool.pcs[t], s.tasks[t])
    requires ReadBy(p, names, s.project.checked, s.pool.pcs[t], s.tasks[t])
    ensures var s', pc := Step(names, written, s, t), s.pool.pcs[t];
            || s'.pool.log == s.pool.log
            || (pc.Record? && s'.pool.log == s.pool.log + [pc.item] && Covered(p, names, s.project.checked, pc.item))
  {
    hide Build, ReadsOf;
  }

  lemma CoveredGrows(p: Project, names: seq<string>, a: set<string>, b: set<string>, item: nat)
    requires a <= b && Covered(p, names, a, item)
    ensures Covered(p, names, b, item)
  {
    hide ReadsOf;
  }

  lemma ReadByGrows(p: Project, names: seq<string>, a: set<string>, b: set<string>, pc: Pc, task: Task)
    requires a <= b && ReadBy(p, names, a, pc, task)
    ensures ReadBy(p, names, b, pc, task)
  {
    hide ReadsOf;
  }

  lemma ReadsKept(p: Project, names: seq<string>, written: string -> nat, s: Builders, t: nat)
    requires p.mode.Hybrid? && t < |s.tasks| && PoolInv(p, names, s) && TasksInv(p, names, s) && ReadsInv(p, names, s)
    ensures |Step(names, written, s, t).tasks| == |Step(names, written, s, t).pool.pcs|
    ensures ReadsInv(p, names, Step(names, written, s, t))
  {
    hide ReadsOf;
    var s' := Step(names, written, s, t);
    assert TaskOk(p, names, s.pool.pcs[t], s.tasks[t]);
    assert ReadBy(p, names, s.project.checked, s.pool.pcs[t], s.tasks[t]);
    StepIsLocal(names, written, s, t);
    ReadByKept(p, names, written, s, t);
    LogStep(p, names, written, s, t);
    hide Step, TaskOk, WorkPool.Inv, InBounds, SameSite, PoolStep, Covered, ReadBy;
    forall i | 0 <= i < |s'.pool.log|
      ensures Covered(p, names, s'.project.checked, s'.pool.log[i])
    {
      if i < |s.pool.log| {
        assert s'.pool.log[i] == s.pool.log[i];
      }
      assert Covered(p, names, s.project.checked, s'.pool.log[i]);
      CoveredGrows(p, names, s.project.checked, s'.project.checked, s'.pool.log[i]);
    }
    forall u | 0 <= u < |s'.tasks| && u != t
      ensures ReadBy(p, names, s'.project.checked, s'.pool.pcs[u], s'.tasks[u])
    {
      assert ReadBy(p, names, s.project.checked, s.pool.pcs[u], s.tasks[u]);
      ReadByGrows(p, names, s.project.checked, s'.project.checked, s.pool.pcs[u], s.tasks[u]);
    }
  }

  /** In modified mode no hash file is looked at. */
  lemma ModifiedKeepsHashes(p: Project, names: seq<string>, written: string -> nat, s: Builders, t: nat)
    requires p.mode.Modified? && t < |s.tasks| && InBounds(names, s) && SameSite(p, s.project)
    requires TaskOk(p, names, s.pool.pcs[t], s.tasks[t])
    ensures var q, q' := s.project, Step(names, written, s, t).project; q'.hashes == q.hashes && q'.checked == q.checked
  {
    hide Build, ReadsOf;
  }

  lemma FilesToDo(p: Project, names: seq<string>, s: Builders, t: nat)
    requires t < |s.tasks| && PoolInv(p, names, s)
    requires p.mode.Hybrid? ==> HashInv(p, names, s) && ReadsInv(p, names, s)
    ensures HashesToDo(p, s, t)
  {
    hide WorkPool.Inv;
    if p.mode.Hybrid? {
      assert ReadBy(p, names, s.project.checked, s.pool.pcs[t], s.tasks[t]);
    }
  }

  /** Every step of every thread keeps the whole invariant. */
  lemma StepKeeps(p: Project, names: seq<string>, written: string -> nat, s: Builders, t: nat)
    requires WellTracked(p) && t < |s.tasks| && Inv(p, names, written, s)
    ensures Inv(p, names, written, Step(names, written, s, t))
  {
    assert TaskOk(p, names, s.pool.pcs[t], s.tasks[t]);
    FilesToDo(p, names, s, t);
    PoolStepKeeps(p, names, written, s, t);
    TasksKept(p, names, written, s, t);
    WritesKept(p, names, written, s, t);
    if p.mode.Hybrid? {
      assert ReadBy(p, names, s.project.checked, s.pool.pcs[t], s.tasks[t]);
      HashesKept(p, names, written, s, t);
      ReadsKept(p, names, written, s, t);
    } else {
      ModifiedKeepsHashes(p, names, written, s, t);
    }
    hide Step, TaskOk, TasksInv, WritesInv, HashInv, ReadsInv, WorkPool.Inv;
  }

  // ---- Runs ----

  function Run(names: seq<string>, written: string -> nat, s: Builders, schedule: seq<nat>): Builders
    decreases |schedule|
  {
    if schedule == [] || !InBounds(names, s) then s
    else if schedule[0] >= |s.pool.pcs| then Run(names, written, s, schedule[1..])
    else Run(names, written, Step(names, written, s, schedule[0]), schedule[1..])
  }

  lemma {:induction false} RunKeeps(p: Project, names: seq<string>, written: string -> nat, s: Builders,
                                    schedule: seq<nat>)
    requires WellTracked(p) && Inv(p, names, written, s)
    ensures var s' := Run(names, written, s, schedule);
            Inv(p, names, written, s') && |s'.pool.pcs| == |s.pool.pcs|
    decreases |schedule|
  {
    if schedule == [] {
    } else if schedule[0] >= |s.pool.pcs| {
      RunKeeps(p, names, written, s, schedule[1..]);
    } else {
      assert PoolInv(p, names, s);
      StepIsLocal(names, written, s, schedule[0]);
      StepKeeps(p, names, written, s, schedule[0]);
      hide Inv, Step, PoolInv, InBounds;
      RunKeeps(p, names, written, Step(names, written, s, schedule[0]), schedule[1..]);
    }
  }

  lemma StartKeeps(p: Project, names: seq<string>, written: string -> nat, threads: nat)
    requires forall name | name in names :: name in p.pages
    ensures Inv(p, names, written, StartBuilding(p, threads))
  {
    WorkPool.StartInv(BuildWork(p, names), threads);
    hide WorkPool.Inv, IsTarget, IsRead;
  }

  /** A whole run of a pool of that many threads. */
  function BuildRun(p: Project, names: seq<string>, written: string -> nat, threads: nat,
                    schedule: seq<nat>): Builders {
    Run(names, written, StartBuilding(p, threads), schedule)
  }

  lemma AllIdle(p: Project, names: seq<string>, s: Builders)
    requires |s.tasks| == |s.pool.pcs| && TasksInv(p, names, s) && AllDone(s.pool)
    ensures forall t | 0 <= t < |s.tasks| :: s.tasks[t].Idle?
  {
    hide HasResult, IsResult;
    forall t | 0 <= t < |s.tasks|
      ensures s.tasks[t].Idle?
    {
      assert TaskOk(p, names, s.pool.pcs[t], s.tasks[t]);
    }
  }

  lemma AllChecked(p: Project, names: seq<string>, s: Builders, path: string)
    requires |s.tasks| == |s.pool.pcs| && ReadsInv(p, names, s) && IsOrder(s.pool.log, |names|)
    requires IsRead(p, Names(names), path)
    ensures path in s.project.checked
  {
    hide ReadsOf, ReadBy;
    var name :| name in Names(names) && name in p.pages && path in ReadsOf(p, name);
    var item :| 0 <= item < |names| && names[item] == name;
    assert item in s.pool.log;
    var i :| 0 <= i < |s.pool.log| && s.pool.log[i] == item;
    assert Covered(p, names, s.project.checked, s.pool.log[i]);
  }

  /** When all have stopped, the project is as building these pages leaves it. */
  lemma DoneIsSettled(p: Project, names: seq<string>, written: string -> nat, s: Builders)
    requires Inv(p, names, written, s) && AllDone(s.pool) && s.pool.pcs != []
    ensures Settled(p, Names(names), written, s.project)
  {
    var w := BuildWork(p, names);
    assert PoolInv(p, names, s);
    ExactWhenDone(w, s.pool);
    AllIdle(p, names, s);
    hide WorkPool.Inv, AllDone, TasksInv, Build, OutputWritten, InfoWritten, SameAt, InBounds, HashWritten, IsRead,
         ReadsInv, OthersKept;
    if p.mode.Hybrid? {
      forall path | IsRead(p, Names(names), path)
        ensures path in s.project.checked
      {
        AllChecked(p, names, s, path);
      }
    }
  }

  /** Turns a thread still takes for its page at most. */
  function TaskRank(task: Task): nat {
    match task
    case Idle => 0
    case Reading(rest) => 2 * |rest| + 4
    case Hashing(_, rest) => 2 * |rest| + 5
    case Writing(_) => 3
    case Informing(_) => 2
    case Returned(_) => 1
  }

  function TaskRanks(tasks: seq<Task>): nat {
    if tasks == [] then 0 else TaskRanks(tasks[..|tasks| - 1]) + TaskRank(tasks[|tasks| - 1])
  }

  lemma {:induction false} TaskRanksAt(tasks: seq<Task>, t: nat, task: Task)
    requires t < |tasks|
    ensures TaskRanks(tasks[t := task]) == TaskRanks(tasks) - TaskRank(tasks[t]) + TaskRank(task)
  {
    hide TaskRank;
    var n := |tasks| - 1;
    if t == n {
      assert tasks[t := task][..n] == tasks[..n];
    } else {
      assert tasks[t := task][..n] == tasks[..n][t := task];
      TaskRanksAt(tasks[..n], t, task);
    }
  }

  /** The most files the build of one of the pages reads. */
  function MostReads(p: Project, names: seq<string>): (most: nat)
    requires forall name | name in names :: name in p.pages
    ensures forall name | name in names :: |ReadsOf(p, name)| <= most
  {
    if names == [] then 0
    else
      assert names == [names[0]] + names[1..];
      var most, first := MostReads(p, names[1..]), |ReadsOf(p, names[0])|;
      if first <= most then most else first
  }

  /** What is left to do: each step of the pool outweighs the turns it can bring a thread. */
  function Left(p: Project, names: seq<string>, s: Builders): int
    requires forall name | name in names :: name in p.pages
  {
    (2 * MostReads(p, names) + 5) * Remaining(BuildWork(p, names), s.pool) + TaskRanks(s.tasks)
  }

  lemma Outweighs(cost: nat, before: int, after: int, gain: int)
    requires 0 <= after < before && gain < cost
    ensures cost * after + gain < cost * before && 0 <= cost * after
  {
    Distributes(cost, after, before - after);
    Distributes(cost, 1, before - after - 1);
    NoLess(cost, before - after - 1);
    NoLess(cost, after);
  }

  lemma Distributes(a: int, b: int, c: int)
    ensures a * (b + c) == a * b + a * c
  {
  }

  lemma NoLess(a: nat, b: nat)
    ensures 0 <= a * b
  {
  }

  /** A turn of a build brings its page closer to its end. */
  lemma TurnShortens(name: string, written: nat, s: Builders, t: nat)
    requires t < |s.tasks| && name in s.project.pages && !s.tasks[t].Idle? && !s.tasks[t].Returned?
    ensures var s' := Turn(name, written, s, t);
            && s'.pool == s.pool && |s'.tasks| == |s.tasks|
            && s'.tasks == s.tasks[t := s'.tasks[t]]
            && TaskRank(s'.tasks[t]) < TaskRank(s.tasks[t])
  {
    hide Build, ReadsOf;
  }

  /** A step of the pool brings its thread no more turns than the most reads make. */
  lemma PoolStepTurns(p: Project, names: seq<string>, written: string -> nat, s: Builders, t: nat)
    requires t < |s.tasks| && InBounds(names, s) && SameSite(p, s.project)
    requires !(s.pool.pcs[t].Process? && !s.tasks[t].Returned?)
    requires forall name | name in names :: name in p.pages
    ensures var s' := Step(names, written, s, t);
            && s'.project == s.project && s'.pool == PoolStep(names, s, t) && |s'.tasks| == |s.tasks|
            && s'.tasks == s.tasks[t := s'.tasks[t]]
            && TaskRank(s'.tasks[t]) <= TaskRank(s.tasks[t]) + 2 * MostReads(p, names) + 4
            && (Blocked(s.pool, t) ==> s'.tasks == s.tasks)
  {
    SameBuild(p, s.project);
    hide Build, ReadsOf, PoolStep, MostReads, Turn, SameSite;
    assert s.tasks[t := s.tasks[t]] == s.tasks;
    match s.pool.pcs[t]
    case Unlock(item) =>
      var name := names[item];
      assert ReadsOf(s.project, name) == ReadsOf(p, name);
      assert |ReadsOf(p, name)| <= MostReads(p, names);
    case _ =>
  }

  /** The measure after a turn, and after a step of the pool. */
  lemma LeftAfter(p: Project, names: seq<string>, s: Builders, s': Builders, t: nat)
    requires t < |s.tasks| == |s'.tasks| && forall name | name in names :: name in p.pages
    requires s'.tasks == s.tasks[t := s'.tasks[t]]
    requires Remaining(BuildWork(p, names), s'.pool) >= 0
    requires if s'.pool == s.pool then TaskRank(s'.tasks[t]) < TaskRank(s.tasks[t])
             else
               && Remaining(BuildWork(p, names), s'.pool) < Remaining(BuildWork(p, names), s.pool)
               && TaskRank(s'.tasks[t]) <= TaskRank(s.tasks[t]) + 2 * MostReads(p, names) + 4
    ensures 0 <= Left(p, names, s') < Left(p, names, s)
  {
    hide BuildWork, Remaining, TaskRank, TaskRanks, MostReads;
    TaskRanksAt(s.tasks, t, s'.tasks[t]);
    var w, cost := BuildWork(p, names), 2 * MostReads(p, names) + 5;
    Product(cost, Remaining(w, s'.pool));
    if s'.pool != s.pool {
      Outweighs(cost, Remaining(w, s.pool), Remaining(w, s'.pool), TaskRank(s'.tasks[t]) - TaskRank(s.tasks[t]));
    }
  }

  /** Every step of a builder that is no wait for the lock brings the end closer. */
  lemma StepProgresses(p: Project, names: seq<string>, written: string -> nat, s: Builders, t: nat)
    requires t < |s.tasks| && InBounds(names, s) && forall name | name in names :: name in p.pages
    requires PoolInv(p, names, s) && TaskOk(p, names, s.pool.pcs[t], s.tasks[t])
    ensures var s' := Step(names, written, s, t);
            if Blocked(s.pool, t) then s' == s else 0 <= Left(p, names, s') < Left(p, names, s)
  {
    assert t < |s.pool.pcs|;
    hide WorkPool.Inv, WorkPool.Step, Step, PoolStep, Turn, BuildWork, Remaining, TaskRank, TaskRanks, MostReads,
         InBounds, SameSite, Left;
    WorkPool.StepProgresses(BuildWork(p, names), s.pool, t);
    RemainingIsLeft(BuildWork(p, names), s.pool);
    PoolStepIs(p, names, s, t);
    if s.pool.pcs[t].Process? && !s.tasks[t].Returned? {
      OwnTurn(p, names, written, s, t);
    } else {
      PoolStepTurns(p, names, written, s, t);
    }
    if !Blocked(s.pool, t) {
      LeftAfter(p, names, s, Step(names, written, s, t), t);
    }
  }

  lemma OwnTurn(p: Project, names: seq<string>, written: string -> nat, s: Builders, t: nat)
    requires t < |s.tasks| && InBounds(names, s) && TaskOk(p, names, s.pool.pcs[t], s.tasks[t])
    requires s.pool.pcs[t].Process? && !s.tasks[t].Returned?
    ensures var s' := Step(names, written, s, t);
            && s'.pool == s.pool && |s'.tasks| == |s.tasks|
            && s'.tasks == s.tasks[t := s'.tasks[t]]
            && TaskRank(s'.tasks[t]) < TaskRank(s.tasks[t])
  {
    StepProject(names, written, s, t);
    hide Step, Turn, TaskRank, HasResult, IsResult;
    TurnShortens(names[s.pool.pcs[t].item], written(names[s.pool.pcs[t].item]), s, t);
  }

  lemma Product(a: nat, b: int)
    requires b >= 0
    ensures a * b >= 0
  {
  }

  lemma RemainingIsLeft(w: Work, s: Pool)
    requires WorkPool.Inv(w, s)
    ensures Remaining(w, s) >= 0
  {
  }

  /** Until all builders have stopped, one of them can step: there is no deadlock. */
  lemma SomeBuilderSteps(p: Project, names: seq<string>, written: string -> nat, s: Builders) returns (t: nat)
    requires Inv(p, names, written, s) && !AllDone(s.pool)
    ensures t < |s.tasks| && |s.tasks| == |s.pool.pcs| && !Blocked(s.pool, t)
  {
    hide TasksInv, WritesInv, HashInv, ReadsInv, WorkPool.Inv;
    t := SomeThreadSteps(BuildWork(p, names), s.pool);
  }

  // ---- Under every schedule ----

  /** The order the pages' results were recorded in. */
  function Recorded(names: seq<string>, log: seq<nat>): (order: seq<string>)
    requires forall i | 0 <= i < |log| :: log[i] < |names|
    ensures |order| == |log| && forall i | 0 <= i < |log| :: order[i] == names[log[i]]
  {
    seq(|log|, i requires 0 <= i < |log| => names[log[i]])
  }

  lemma RecordedNames(names: seq<string>, log: seq<nat>)
    requires IsOrder(log, |names|)
    ensures Names(Recorded(names, log)) == Names(names)
  {
    var order := Recorded(names, log);
    forall name | name in names
      ensures name in order
    {
      var item :| 0 <= item < |names| && names[item] == name;
      assert item in log;
      var i :| 0 <= i < |log| && log[i] == item;
      assert order[i] == name;
    }
  }

  /**
   Building in parallel is building one after another. Whatever way threads interleave, once
   all have stopped the outputs, info files, hash files and checked files are those of building
   the pages in the order they were recorded; the built names are those that build, the failed
   names the others, and noFinished counts them all.
   */
  lemma ParallelIsSequential(p: Project, names: seq<string>, written: string -> nat, threads: nat, schedule: seq<nat>)
    requires WellTracked(p) && threads > 0 && forall name | name in names :: name in p.pages
    requires AllDone(BuildRun(p, names, written, threads, schedule).pool)
    ensures var s := BuildRun(p, names, written, threads, schedule);
            && IsOrder(s.pool.log, |names|)
            && (forall name | name in Recorded(names, s.pool.log) :: name in p.pages)
            && s.project == BuildAll(p, JobsIn(p, written, Recorded(names, s.pool.log)))
            && s.pool.second == (set name | name in names && Build(p, name).Ok?)
            && s.pool.first == Names(names) - s.pool.second
            && s.pool.noFinished == |names|
  {
    hide Inv, PoolInv, WorkPool.Inv, Build, BuildAll, BuildRun, Settled, AllDone, Names;
    BuildersFinish(p, names, written, threads, schedule);
    var s := BuildRun(p, names, written, threads, schedule);
    RecordedNames(names, s.pool.log);
    RecordedPages(p, names, s.pool.log);
    var order := Recorded(names, s.pool.log);
    SequentialSettles(p, written, order);
    SettledIsUnique(p, Names(names), written, s.project, BuildAll(p, JobsIn(p, written, order)));
  }

  /** What the builders leave once all have stopped. */
  lemma BuildersFinish(p: Project, names: seq<string>, written: string -> nat, threads: nat, schedule: seq<nat>)
    requires WellTracked(p) && threads > 0 && forall name | name in names :: name in p.pages
    requires AllDone(BuildRun(p, names, written, threads, schedule).pool)
    ensures var s := BuildRun(p, names, written, threads, schedule);
            && IsOrder(s.pool.log, |names|)
            && Settled(p, Names(names), written, s.project)
            && s.pool.second == (set name | name in names && Build(p, name).Ok?)
            && s.pool.first == Names(names) - s.pool.second
            && s.pool.noFinished == |names|
  {
    hide Settled, Build, AllDone, IsOrder, WorkPool.Inv, Run;
    var s := BuildRun(p, names, written, threads, schedule);
    var w := BuildWork(p, names);
    StartKeeps(p, names, written, threads);
    RunKeeps(p, names, written, StartBuilding(p, threads), schedule);
    DoneIsSettled(p, names, written, s);
    assert PoolInv(p, names, s);
    hide Inv, PoolInv;
    ExactWhenDone(w, s.pool);
    BuildPoolPartitions(w, s.pool);
  }

  lemma RecordedPages(p: Project, names: seq<string>, log: seq<nat>)
    requires IsOrder(log, |names|) && forall name | name in names :: name in p.pages
    ensures forall name | name in Recorded(names, log) :: name in p.pages
  {
  }
}
