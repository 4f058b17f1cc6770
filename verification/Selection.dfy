/**
 What makes build_updated select a page: for each step of a project's life, what a page found
 up to date is found to be after it. Only what the page itself depends on counts.
 */
module Selection {
  import opened Incremental
  import opened Paths

  /** The files recorded as a page's dependencies when it was last built. */
  function Recorded(p: Project, name: string): set<string>
    requires name in p.pages
  {
    var output := p.pages[name].output;
    if output in p.infos then p.infos[output].dependencies else {}
  }

  /** The page's own content or template file. */
  predicate OwnFile(p: Project, name: string, path: string)
    requires name in p.pages
  {
    path == Key(p.pages[name].page.content) || path == Key(p.pages[name].page.template)
  }

  // ---- Files ----

  /** An edit selects a page found up to date exactly when the file is among its recorded dependencies. */
  lemma EditSelectsIff(p: Project, name: string, path: string, text: string, stamp: nat)
    requires name in p.pages && Check(p, name) == UpToDate && Enabled(p, Edit(path, text, stamp))
    ensures Check(Apply(p, Edit(path, text, stamp)), name) ==
            if path in Recorded(p, name) then Update else UpToDate
  {
    hide Key;
    var p' := Apply(p, Edit(path, text, stamp));
    var info := p.infos[p.pages[name].output];
    forall other | other in info.dependencies
      ensures Changed(p', info, other) <==> other == path
    {
      assert !Changed(p, info, other);
    }
  }

  /** A page already selected, or with a file missing, stays so when some other file is edited. */
  lemma OtherEditKeepsVerdict(p: Project, name: string, path: string, text: string, stamp: nat)
    requires name in p.pages && Enabled(p, Edit(path, text, stamp))
    requires path !in Recorded(p, name) && !OwnFile(p, name, path)
    ensures Check(Apply(p, Edit(path, text, stamp)), name) == Check(p, name)
  {
    hide Key;
    var p' := Apply(p, Edit(path, text, stamp));
    forall info: Info, other | other != path
      ensures Changed(p', info, other) <==> Changed(p, info, other)
    {
    }
  }

  /** Deleting a file makes a page found up to date a problem, selects it, or is not noticed. */
  lemma DeleteSelectsIff(p: Project, name: string, path: string)
    requires name in p.pages && Check(p, name) == UpToDate
    ensures Check(Apply(p, Delete(path)), name) ==
            if OwnFile(p, name, path) then Problem
            else if path in Recorded(p, name) then Update
            else UpToDate
  {
    hide Key;
    var p' := Apply(p, Delete(path));
    var info := p.infos[p.pages[name].output];
    forall other | other in info.dependencies
      ensures Changed(p', info, other) <==> other == path
    {
      assert !Changed(p, info, other);
    }
  }

  // ---- Hash files ----

  /** In modified mode hash files do not matter. */
  lemma ModifiedIgnoresHashes(p: Project, name: string, hashes: map<string, int>)
    requires name in p.pages && p.mode == Modified
    ensures Check(p.(hashes := hashes), name) == Check(p, name)
  {
    hide Key;
    var p' := p.(hashes := hashes);
    forall info: Info, path
      ensures Changed(p', info, path) <==> Changed(p, info, path)
    {
    }
  }

  /** In hybrid mode another hash selects a page found up to date exactly when it is one of a dependency. */
  lemma HashSelectsIff(p: Project, name: string, path: string, hash: int)
    requires name in p.pages && p.mode == Hybrid && Check(p, name) == UpToDate
    requires path in p.hashes && hash != p.hashes[path]
    ensures Check(p.(hashes := p.hashes[path := hash]), name) ==
            if path in Recorded(p, name) then Update else UpToDate
  {
    hide Key;
    var p' := p.(hashes := p.hashes[path := hash]);
    var info := p.infos[p.pages[name].output];
    forall other | other in info.dependencies
      ensures Changed(p', info, other) <==> other == path
    {
      assert !Changed(p, info, other);
    }
  }

  /** And so does a hash file gone missing. */
  lemma LostHashSelectsIff(p: Project, name: string, path: string)
    requires name in p.pages && p.mode == Hybrid && Check(p, name) == UpToDate
    ensures Check(p.(hashes := p.hashes - {path}), name) == if path in Recorded(p, name) then Update else UpToDate
  {
    hide Key;
    var p' := p.(hashes := p.hashes - {path});
    var info := p.infos[p.pages[name].output];
    forall other | other in info.dependencies
      ensures Changed(p', info, other) <==> other == path
    {
      assert !Changed(p, info, other);
    }
  }

  // ---- Tracking ----

  /** Another title selects a page found up to date; the same one does not. */
  lemma RetitleSelectsIff(p: Project, name: string, title: string)
    requires WellTracked(p) && name in p.pages && Check(p, name) == UpToDate
    ensures Check(Apply(p, Retitle(name, title)), name) ==
            if title == p.pages[name].page.title then UpToDate else Update
  {
    hide Key, Changed;
    ChecksAlike(p, Apply(p, Retitle(name, title)));
  }

  /**
   Another template that exists selects it, unless the path is only spelt otherwise; one that
   does not is a problem.
   */
  lemma RetemplateSelectsIff(p: Project, name: string, template: string)
    requires WellTracked(p) && name in p.pages && Check(p, name) == UpToDate
    ensures Check(Apply(p, Retemplate(name, template)), name) ==
            if template == "" || Key(template) !in p.sources then Problem
            else if Key(template) == Key(p.pages[name].page.template) then UpToDate
            else Update
  {
    hide Key, Changed;
    ChecksAlike(p, Apply(p, Retemplate(name, template)));
  }

  /** What is done to one page's tracking leaves the other pages' verdicts alone. */
  lemma OtherPagesKeepVerdict(p: Project, step: Step, name: string)
    requires name in p.pages && Enabled(p, step)
    requires match step
             case Retitle(other, _) => other != name
             case Retemplate(other, _) => other != name
             case Track(_) => true
             case Restart => true
             case _ => false
    ensures name in Apply(p, step).pages && Check(Apply(p, step), name) == Check(p, name)
  {
    hide Key, Changed;
    ChecksAlike(p, Apply(p, step));
  }

  /** A newly tracked page is selected when its files exist, and is a problem otherwise. */
  lemma TrackedIsSelectedIff(p: Project, tracked: Tracked)
    requires Enabled(p, Track(tracked))
    ensures tracked.page.name in Apply(p, Track(tracked)).pages
    ensures Check(Apply(p, Track(tracked)), tracked.page.name) ==
            if Key(tracked.page.content) in p.sources && tracked.page.template != ""
                && Key(tracked.page.template) in p.sources
            then Update else Problem
  {
    hide Key, Changed;
  }

  lemma ChecksAlike(p: Project, p': Project)
    requires p'.sources == p.sources && p'.hashes == p.hashes && p'.mode == p.mode && p'.hash == p.hash
    ensures forall info, path :: Changed(p', info, path) <==> Changed(p, info, path)
  {
  }

  // ---- Over a whole build ----

  /**
   One edit after a build. Of the pages a build_updated without problems or failures has built,
   and which a second call would skip, an edit of one file makes it select just those whose
   builds read that file.
   */
  lemma EditAfterBuildSelectsIff(p: Project, jobs: seq<Job>, name: string, path: string, text: string, stamp: nat)
    requires WellTracked(p) && JobsFor(p, jobs) && Problems(p) == {} && NoneFailed(p, jobs)
    requires name in Selected(p) && Check(BuildAll(p, jobs), name) == UpToDate
    requires Enabled(BuildAll(p, jobs), Edit(path, text, stamp))
    ensures Check(Apply(BuildAll(p, jobs), Edit(path, text, stamp)), name) == Update <==>
              path in Build(p, name).value.dependencies
  {
    hide Check, Build, BuildAll, Apply, Enabled;
    var p1 := BuildAll(p, jobs);
    var k :| 0 <= k < |jobs| && jobs[k].name == name;
    BuildAllBuilds(p, jobs, k);
    EditSelectsIff(p1, name, path, text, stamp);
  }
}
