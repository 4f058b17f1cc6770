/**
 build_updated and the bodies of dep_thread and build_thread, run by one thread: loops over
 the tracked pages that fill the shared result sets, proved against Check and BuildAll.
 Module WorkPool shows that any number of threads come to the same.
 */
module ProjectInfo {
  import opened Expansion
  import opened Incremental
  import opened Parsing
  import opened Paths
  import opened Quoted

  class ProjectInfo {
    const incrMode: Mode
    const fnvHash: string -> int
    var sources: map<string, Source>
    var trackedAll: map<string, Tracked>
    var infos: map<string, Info>
    var outputs: map<string, string>
    var hashes: map<string, int>
    var checkedHashFile: set<string>
    /** The title each output was last written under, quotes included. */
    ghost var builtAs: map<string, string>

    var problemNames: set<string>
    var updatedInfo: set<string>
    var removedFiles: set<string>
    var modifiedFiles: set<string>
    var builtNames: set<string>
    var failedNames: set<string>

    constructor (mode: Mode, hash: string -> int, sources: map<string, Source>, pages: map<string, Tracked>)
      ensures Snapshot() == Project(mode, hash, sources, pages, map[], map[], map[], {}, map[])
    {
      incrMode, fnvHash := mode, hash;
      this.sources, trackedAll := sources, pages;
      infos, outputs, hashes, checkedHashFile, builtAs := map[], map[], map[], {}, map[];
      problemNames, updatedInfo, removedFiles, modifiedFiles, builtNames, failedNames := {}, {}, {}, {}, {}, {};
    }

    ghost function Snapshot(): Project
      reads this
    {
      Project(incrMode, fnvHash, sources, trackedAll, infos, outputs, hashes, checkedHashFile, builtAs)
    }

    /** dep_thread on one page: files the page under problem, updated or neither. */
    method CheckPage(name: string)
      requires name in trackedAll
      modifies this`problemNames, this`updatedInfo, this`removedFiles, this`modifiedFiles
      ensures problemNames == old(problemNames) + (if Check(Snapshot(), name) == Problem then {name} else {})
      ensures updatedInfo == old(updatedInfo) + (if Check(Snapshot(), name) == Update then {name} else {})
      ensures old(removedFiles) <= removedFiles && removedFiles - old(removedFiles) !! sources.Keys
      ensures old(modifiedFiles) <= modifiedFiles && modifiedFiles - old(modifiedFiles) <= sources.Keys
    {
      hide Key;
      var tracked := trackedAll[name];
      var page := tracked.page;
      if Key(page.content) !in sources || page.template == "" || Key(page.template) !in sources {
        problemNames := problemNames + {name};
        return;
      }
      if tracked.output !in infos {
        updatedInfo := updatedInfo + {name};
        return;
      }
      var info := infos[tracked.output];
      if page.name != info.name || page.title != info.title || Key(page.template) != Key(info.template) {
        updatedInfo := updatedInfo + {name};
        return;
      }
      var deps := info.dependencies;
      while deps != {}
        invariant deps <= info.dependencies
        invariant forall path | path in info.dependencies - deps :: !Changed(Snapshot(), info, path)
        invariant updatedInfo == old(updatedInfo) && problemNames == old(problemNames)
        invariant removedFiles == old(removedFiles) && modifiedFiles == old(modifiedFiles)
      {
        var dep :| dep in deps;
        deps := deps - {dep};
        if dep !in sources {
          removedFiles := removedFiles + {dep};
          updatedInfo := updatedInfo + {name};
          break;
        } else if sources[dep].modified > info.written {
          modifiedFiles := modifiedFiles + {dep};
          updatedInfo := updatedInfo + {name};
          break;
        } else if incrMode.Hybrid? {
          if dep !in hashes {
            updatedInfo := updatedInfo + {name};
            break;
          } else if hashes[dep] != fnvHash(sources[dep].text) {
            modifiedFiles := modifiedFiles + {dep};
            updatedInfo := updatedInfo + {name};
            break;
          }
        }
      }
    }

    /** Writes the hash files build brings up to date as it reads files. */
    method HashFiles(touched: set<string>)
      requires touched <= sources.Keys
      modifies this`hashes, this`checkedHashFile
      ensures Snapshot() == Rehash(old(Snapshot()), touched)
    {
      if incrMode.Modified? {
        return;
      }
      var rest := touched;
      ghost var renewed := map path | path in touched && path in sources
          && path !in checkedHashFile :: fnvHash(sources[path].text);
      assert renewed - rest == map[];
      while rest != {}
        invariant rest <= touched
        invariant checkedHashFile == old(checkedHashFile) + (touched - rest)
        invariant hashes == old(hashes) + (renewed - rest)
      {
        var path :| path in rest;
        RenewStep(old(hashes), renewed, rest, path);
        rest := rest - {path};
        if path !in checkedHashFile {
          checkedHashFile := checkedHashFile + {path};
          var hash := fnvHash(sources[path].text);
          if path !in hashes || hashes[path] != hash {
            hashes := hashes[path := hash];
          }
        }
      }
      assert renewed - rest == renewed && touched - rest == touched;
    }

    /** build_thread on one page. */
    method BuildPageOf(name: string, written: nat) returns (ghost job: Job)
      requires name in trackedAll && trackedAll[name].page.name == name
      modifies this`hashes, this`checkedHashFile, this`infos, this`outputs, this`builtAs, this`builtNames,
               this`failedNames
      ensures job.name == name && job.written == written
      ensures Build(old(Snapshot()), name).Ok? ==> Build(old(Snapshot()), name).value.dependencies <= job.touched
      ensures Snapshot() == BuildOne(old(Snapshot()), name, written, job.touched)
      ensures builtNames == old(builtNames) + (if Build(old(Snapshot()), name).Ok? then {name} else {})
      ensures failedNames == old(failedNames) + (if Build(old(Snapshot()), name).Ok? then {} else {name})
    {
      hide BuildPage, Rehash;
      var tracked := trackedAll[name];
      var parser := new Parser(Texts(sources), tracked.page);
      var result := parser.Build(tracked.page);
      job := Job(name, written, parser.depFiles);
      HashFiles(parser.depFiles);
      match result {
        case Err(_) =>
          failedNames := failedNames + {name};
        case Ok(built) =>
          outputs := outputs[tracked.output := built.output];
          infos := infos[tracked.output :=
            Info(tracked.page.name, Unquote(tracked.page.title), tracked.page.template, built.dependencies, written)];
          builtAs := builtAs[tracked.output := tracked.page.title];
          builtNames := builtNames + {name};
      }
    }

    /** The checking phase of build_updated, by one thread. */
    method CheckAll()
      modifies this`problemNames, this`updatedInfo, this`removedFiles, this`modifiedFiles
      ensures problemNames == Problems(Snapshot()) && updatedInfo == Selected(Snapshot())
    {
      hide Check;
      problemNames, updatedInfo, removedFiles, modifiedFiles := {}, {}, {}, {};
      var rest := trackedAll.Keys;
      while rest != {}
        invariant rest <= trackedAll.Keys
        invariant problemNames == set name | name in trackedAll.Keys - rest && Check(Snapshot(), name) == Problem
        invariant updatedInfo == set name | name in trackedAll.Keys - rest && Check(Snapshot(), name) == Update
      {
        var name :| name in rest;
        CheckPage(name);
        rest := rest - {name};
      }
    }

    /**
     build_updated: checks every tracked page, then builds the selected ones. The pages built
     and failed are exactly the selected ones that build and that do not, and the project ends
     as building the selected pages, each once in some order, leaves it.
     */
    method BuildUpdated(written: nat) returns (ghost jobs: seq<Job>)
      requires WellTracked(Snapshot())
      requires forall path | path in sources :: sources[path].modified <= written
      modifies this
      ensures JobsFor(old(Snapshot()), jobs)
      ensures Snapshot() == BuildAll(old(Snapshot()), jobs)
      ensures problemNames == Problems(old(Snapshot()))
      ensures builtNames == set name | name in Selected(old(Snapshot())) && Build(old(Snapshot()), name).Ok?
      ensures failedNames == Selected(old(Snapshot())) - builtNames
    {
      ghost var before := Snapshot();
      hide BuildOne, BuildAll, BuildPage, Texts, Check, Progress, Outcomes;
      builtNames, failedNames := {}, {};
      CheckAll();
      jobs := [];
      var rest := updatedInfo;
      ProgressStart(before);
      OutcomesStart(before);
      while rest != {}
        invariant rest <= Selected(before)
        invariant sources == before.sources && trackedAll == before.pages && updatedInfo == Selected(before)
        invariant problemNames == Problems(before)
        invariant forall job | job in jobs :: job.name in before.pages
        invariant Progress(before, jobs, rest) && Snapshot() == BuildAll(before, jobs)
        invariant Outcomes(before, Selected(before) - rest, builtNames, failedNames)
      {
        var name :| name in rest;
        label Turn:
        ghost var job := BuildPageOf(name, written);
        OutcomesStep(before, rest, name, old@Turn(builtNames), old@Turn(failedNames));
        ProgressStep(before, jobs, rest, job);
        jobs := jobs + [job];
        rest := rest - {name};
      }
      ProgressEnd(before, jobs);
      OutcomesEnd(before, builtNames, failedNames);
    }
  }

  /** One more renewed hash. */
  lemma RenewStep(hashes: map<string, int>, renewed: map<string, int>, rest: set<string>, path: string)
    requires path in rest
    ensures path in renewed ==>
              (hashes + (renewed - rest))[path := renewed[path]] ==
              hashes + (renewed - (rest - {path}))
    ensures path !in renewed ==> hashes + (renewed - rest) == hashes + (renewed - (rest - {path}))
  {
    if path !in renewed {
      assert renewed - rest == renewed - (rest - {path});
    }
  }

  /** Which of the pages done so far were built and which failed. */
  ghost predicate Outcomes(p: Project, done: set<string>, built: set<string>, failed: set<string>) {
    && built == (set name | name in done && name in p.pages && Build(p, name).Ok?)
    && failed == (set name | name in done && name in p.pages && !Build(p, name).Ok?)
  }

  lemma OutcomesStart(p: Project)
    ensures Outcomes(p, Selected(p) - Selected(p), {}, {})
  {
  }

  lemma OutcomesStep(p: Project, rest: set<string>, name: string, built: set<string>, failed: set<string>)
    requires rest <= Selected(p) && name in rest
    requires Outcomes(p, Selected(p) - rest, built, failed)
    ensures var ok := Build(p, name).Ok?;
            Outcomes(p, Selected(p) - (rest - {name}), built + (if ok then {name} else {}),
                failed + (if ok then {} else {name}))
  {
    hide Build, Check;
  }

  lemma OutcomesEnd(p: Project, built: set<string>, failed: set<string>)
    requires Outcomes(p, Selected(p) - {}, built, failed)
    ensures built == set name | name in Selected(p) && Build(p, name).Ok?
    ensures failed == Selected(p) - built
  {
    hide Build, Check;
  }

  /** The jobs so far cover the selected pages apart from rest, one to a page. */
  ghost predicate Progress(p: Project, jobs: seq<Job>, rest: set<string>) {
    && (forall job | job in jobs :: job.name in Selected(p) && job.name !in rest && TimelyJob(p, job))
    && (forall name | name in Selected(p) && name !in rest :: exists i :: 0 <= i < |jobs| && jobs[i].name == name)
    && (forall i, j | 0 <= i < j < |jobs| :: jobs[i].name != jobs[j].name)
    && (forall job | job in jobs :: job.name in p.pages)
  }

  lemma ProgressStart(p: Project)
    ensures Progress(p, [], Selected(p)) && BuildAll(p, []) == p
  {
  }

  lemma ProgressStep(p: Project, jobs: seq<Job>, rest: set<string>, job: Job)
    requires Progress(p, jobs, rest) && rest <= Selected(p) && job.name in rest
    requires TimelyJob(p, job)
    ensures Progress(p, jobs + [job], rest - {job.name})
    ensures forall j | j in jobs + [job] :: j.name in p.pages
    ensures BuildAll(p, jobs + [job]) == BuildOne(BuildAll(p, jobs), job.name, job.written, job.touched)
  {
    hide Check, TimelyJob, BuildOne, BuildAll;
    var jobs' := jobs + [job];
    forall name | name in Selected(p) && name !in rest - {job.name}
      ensures exists i :: 0 <= i < |jobs'| && jobs'[i].name == name
    {
      if name == job.name {
        assert jobs'[|jobs|].name == name;
      } else {
        assert name !in rest;
        var i :| 0 <= i < |jobs| && jobs[i].name == name;
        assert jobs'[i].name == name;
      }
    }
    BuildAllSnoc(p, jobs, job);
  }

  lemma ProgressEnd(p: Project, jobs: seq<Job>)
    requires Progress(p, jobs, {})
    ensures JobsFor(p, jobs)
  {
  }
}
