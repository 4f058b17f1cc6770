/**
 The incremental build. A project holds sources with modification stamps, tracked pages,
 and what earlier builds left behind: outputs, info files and hash files. build_updated
 selects pages by comparing these and rebuilds only the selected ones.
 */
module Incremental {
  import opened Expansion
  import opened InputGraph
  import opened Paths
  import opened Quoted
  import opened Results
  import opened Retitling
  import opened Templates

  datatype Mode = Modified | Hybrid

  datatype Source = Source(text: string, modified: nat)

  datatype Tracked = Tracked(page: Page, output: string)

  /** An info file: what the page was when last built, what it depended on, and when. */
  datatype Info = Info(name: string, title: string, template: string, dependencies: set<string>, written: nat)

  /**
   builtAs is a history that nothing here reads: the title, quotes included, under which each
   output was last written. Info files keep it unquoted.
   */
  datatype Project = Project(
    mode: Mode,
    hash: string -> int,
    sources: map<string, Source>,
    pages: map<string, Tracked>,
    infos: map<string, Info>,
    outputs: map<string, string>,
    hashes: map<string, int>,
    checked: set<string>,
    builtAs: map<string, string>)

  function Texts(sources: map<string, Source>): Files {
    map path | path in sources :: sources[path].text
  }

  // ---- Checking ----

  datatype Verdict = Problem | Update | UpToDate

  /** A recorded dependency was removed, modified after the info file, or hashes differently. */
  predicate Changed(p: Project, info: Info, path: string) {
    || path !in p.sources
    || p.sources[path].modified > info.written
    || (p.mode.Hybrid? && (path !in p.hashes || p.hashes[path] != p.hash(p.sources[path].text)))
  }

  /** dep_thread on one page. */
  function Check(p: Project, name: string): Verdict
    requires name in p.pages
  {
    var tracked := p.pages[name];
    var page := tracked.page;
    if Key(page.content) !in p.sources then Problem
    else if page.template == "" || Key(page.template) !in p.sources then Problem
    else if tracked.output !in p.infos then Update
    else
      var info := p.infos[tracked.output];
      if page.name != info.name || page.title != info.title || Key(page.template) != Key(info.template) then Update
      else if exists path | path in info.dependencies :: Changed(p, info, path) then Update
      else UpToDate
  }

  function Selected(p: Project): set<string> {
    set name | name in p.pages && Check(p, name) == Update
  }

  function Problems(p: Project): set<string> {
    set name | name in p.pages && Check(p, name) == Problem
  }

  // ---- Building ----

  function Build(p: Project, name: string): Result<Built, Error>
    requires name in p.pages
  {
    BuildPage(Texts(p.sources), p.pages[name].page)
  }

  /** Hash files are brought up to date once per file and process, and only then. */
  function Rehash(p: Project, touched: set<string>): Project {
    if p.mode.Modified? then p
    else
      var renewed :=
        map path | path in touched && path in p.sources && path !in p.checked :: p.hash(p.sources[path].text);
      p.(hashes := p.hashes + renewed,
            checked := p.checked + touched)
  }

  /** One page through build: on success its output and info file are written. */
  function BuildOne(p: Project, name: string, written: nat, touched: set<string>): (p': Project)
    requires name in p.pages
    ensures p'.pages == p.pages && p'.sources == p.sources && p'.mode == p.mode && p'.hash == p.hash
  {
    var p' := Rehash(p, touched);
    match Build(p, name)
    case Err(_) => p'
    case Ok(built) =>
      var tracked := p.pages[name];
      var info := Info(name, Unquote(tracked.page.title), tracked.page.template, built.dependencies, written);
      p'.(outputs := p'.outputs[tracked.output := built.output],
          infos := p'.infos[tracked.output := info],
          builtAs := p'.builtAs[tracked.output := tracked.page.title])
  }

  /** A page as a thread builds it: which page, when its info is written, which files were hashed. */
  datatype Job = Job(name: string, written: nat, touched: set<string>)

  function BuildAll(p: Project, jobs: seq<Job>): (p': Project)
    requires forall job | job in jobs :: job.name in p.pages
    ensures p'.pages == p.pages && p'.sources == p.sources && p'.mode == p.mode && p'.hash == p.hash
    decreases |jobs|
  {
    if jobs == [] then p
    else
      var p' := BuildOne(p, jobs[0].name, jobs[0].written, jobs[0].touched);
      BuildAll(p', jobs[1..])
  }

  /** Jobs for exactly the selected pages, each once, in any order. */
  predicate JobsFor(p: Project, jobs: seq<Job>) {
    && (forall job | job in jobs :: job.name in Selected(p))
    && (forall name | name in Selected(p) :: exists i :: 0 <= i < |jobs| && jobs[i].name == name)
    && (forall i, j | 0 <= i < j < |jobs| :: jobs[i].name != jobs[j].name)
    && (forall job | job in jobs :: TimelyJob(p, job))
  }

  /** Info files are written no earlier than any source was; a built page hashed what it read. */
  predicate TimelyJob(p: Project, job: Job) {
    && (forall path | path in p.sources :: p.sources[path].modified <= job.written)
    && (job.name in p.pages && Build(p, job.name).Ok? ==> Build(p, job.name).value.dependencies <= job.touched)
  }

  // ---- Steps of a project's life ----

  datatype Step =
    | Edit(path: string, text: string, stamp: nat)
    | Delete(path: string)
    | Retitle(name: string, title: string)
    | Retemplate(name: string, template: string)
    | Track(tracked: Tracked)
    | Restart
    | BuildUpdated(jobs: seq<Job>)

  predicate Enabled(p: Project, step: Step) {
    match step
    case Edit(_, _, stamp) => forall output | output in p.infos :: p.infos[output].written < stamp
    case Delete(_) => true
    case Retitle(name, _) => name in p.pages
    case Retemplate(name, _) => name in p.pages
    case Track(tracked) =>
      && tracked.page.name !in p.pages
      && tracked.output !in p.infos
      && forall name | name in p.pages :: p.pages[name].output != tracked.output
    case Restart => true
    case BuildUpdated(jobs) => JobsFor(p, jobs)
  }

  function Apply(p: Project, step: Step): Project
    requires Enabled(p, step)
  {
    match step
    case Edit(path, text, stamp) => p.(sources := p.sources[path := Source(text, stamp)])
    case Delete(path) => p.(sources := p.sources - {path})
    case Retitle(name, title) =>
      p.(pages := p.pages[name := p.pages[name].(page := p.pages[name].page.(title := title))])
    case Retemplate(name, template) =>
      p.(pages := p.pages[name := p.pages[name].(page := p.pages[name].page.(template := template))])
    case Track(tracked) => p.(pages := p.pages[tracked.page.name := tracked])
    case Restart => p.(checked := {})
    case BuildUpdated(jobs) => BuildAll(p, jobs)
  }

  predicate Initial(p: Project) {
    && p.infos == map[] && p.outputs == map[] && p.builtAs == map[]
    && WellTracked(p)
  }

  /** The states of a run, first to last. */
  ghost predicate IsRun(states: seq<Project>, steps: seq<Step>) {
    && |states| == |steps| + 1
    && Initial(states[0])
    && (forall i | 0 <= i < |steps| :: Enabled(states[i], steps[i]) && states[i + 1] == Apply(states[i], steps[i]))
  }

  // ---- The invariant ----

  /** The page an info file describes, but for its title before it lost its quotes. */
  function Described(info: Info, title: string, content: string): Page {
    Page(info.name, title, info.template, content)
  }

  /**
   An info file is faithful when the output beside it came from building the page it describes,
   under the title last built with, over sources that still agree on every dependency that has
   not changed since.
   */
  ghost predicate Faithful(p: Project, tracked: Tracked, past: Files) {
    && tracked.output in p.infos && tracked.output in p.outputs && tracked.output in p.builtAs
    && var info, title := p.infos[tracked.output], p.builtAs[tracked.output];
       && info.title == Unquote(title)
       && BuildPage(past, Described(info, title, tracked.page.content)) ==
           Ok(Built(p.outputs[tracked.output], info.dependencies))
       && (forall path | path in info.dependencies && path in p.sources && p.sources[path].modified <= info.written ::
             path in past && p.sources[path].text == past[path])
  }

  predicate WellTracked(p: Project) {
    && (forall name | name in p.pages :: p.pages[name].page.name == name)
    && (forall a, b | a in p.pages && b in p.pages && a != b :: p.pages[a].output != p.pages[b].output)
  }

  /** Every info file is faithful. */
  ghost predicate Sound(p: Project) {
    && WellTracked(p)
    && (forall name | name in p.pages && p.pages[name].output in p.infos ::
          exists past :: Faithful(p, p.pages[name], past))
  }

  // ---- Every step keeps the invariant ----

  lemma EditedStaysFaithful(p: Project, path: string, text: string, stamp: nat, tracked: Tracked, past: Files)
    requires Faithful(p, tracked, past) && Enabled(p, Edit(path, text, stamp))
    ensures Faithful(Apply(p, Edit(path, text, stamp)), tracked, past)
  {
    hide BuildPage, Unquote;
  }

  lemma EditKeeps(p: Project, path: string, text: string, stamp: nat)
    requires Sound(p) && Enabled(p, Edit(path, text, stamp))
    ensures Sound(Apply(p, Edit(path, text, stamp)))
  {
    var p' := Apply(p, Edit(path, text, stamp));
    hide Faithful;
    forall name | name in p'.pages && p'.pages[name].output in p'.infos
      ensures exists past :: Faithful(p', p'.pages[name], past)
    {
      var past :| Faithful(p, p.pages[name], past);
      EditedStaysFaithful(p, path, text, stamp, p.pages[name], past);
    }
  }

  lemma DeleteKeeps(p: Project, path: string)
    requires Sound(p)
    ensures Sound(Apply(p, Delete(path)))
  {
    var p' := Apply(p, Delete(path));
    forall name | name in p'.pages && p'.pages[name].output in p'.infos
      ensures exists past :: Faithful(p', p'.pages[name], past)
    {
      var past :| Faithful(p, p.pages[name], past);
      assert Faithful(p', p'.pages[name], past);
    }
  }

  /** Faithfulness is about sources, outputs and info files, and the page's content and output. */
  lemma FaithfulStays(p: Project, p': Project, tracked: Tracked, tracked': Tracked, past: Files)
    requires Faithful(p, tracked, past)
    requires p'.sources == p.sources && p'.outputs == p.outputs && p'.infos == p.infos && p'.builtAs == p.builtAs
    requires tracked'.output == tracked.output && tracked'.page.content == tracked.page.content
    ensures Faithful(p', tracked', past)
  {
    hide BuildPage;
  }

  lemma TrackingStaysWell(p: Project, step: Step)
    requires WellTracked(p) && Enabled(p, step)
    requires step.Retitle? || step.Retemplate? || step.Track? || step.Restart?
    ensures WellTracked(Apply(p, step))
  {
  }

  lemma TrackingKeeps(p: Project, step: Step)
    requires Sound(p) && Enabled(p, step)
    requires step.Retitle? || step.Retemplate? || step.Track? || step.Restart?
    ensures Sound(Apply(p, step))
  {
    var p' := Apply(p, step);
    hide Faithful;
    TrackingStaysWell(p, step);
    hide WellTracked;
    forall name | name in p'.pages && p'.pages[name].output in p'.infos
      ensures exists past :: Faithful(p', p'.pages[name], past)
    {
      assert name in p.pages && p.pages[name].output == p'.pages[name].output;
      var past :| Faithful(p, p.pages[name], past);
      FaithfulStays(p, p', p.pages[name], p'.pages[name], past);
    }
  }

  lemma BuildOneKeeps(p: Project, job: Job)
    requires Sound(p) && job.name in p.pages
    ensures Sound(BuildOne(p, job.name, job.written, job.touched))
  {
    var p' := BuildOne(p, job.name, job.written, job.touched);
    forall name | name in p'.pages && p'.pages[name].output in p'.infos
      ensures exists past :: Faithful(p', p'.pages[name], past)
    {
      if name == job.name && Build(p, name).Ok? {
        BuiltIsFaithful(p, job);
      } else {
        hide BuildPage;
        var past :| Faithful(p, p.pages[name], past);
        OtherStaysFaithful(p, job, name, past);
      }
    }
  }

  lemma OtherStaysFaithful(p: Project, job: Job, name: string, past: Files)
    requires WellTracked(p) && job.name in p.pages && name in p.pages && Faithful(p, p.pages[name], past)
    requires name != job.name || Build(p, name).Err?
    ensures Faithful(BuildOne(p, job.name, job.written, job.touched), p.pages[name], past)
  {
    hide BuildPage;
  }

  /** A page just built has a faithful info file. */
  lemma BuiltIsFaithful(p: Project, job: Job)
    requires WellTracked(p) && job.name in p.pages && Build(p, job.name).Ok?
    ensures var p' := BuildOne(p, job.name, job.written, job.touched);
            Faithful(p', p'.pages[job.name], Texts(p.sources))
  {
    hide Key, Unquote, Rehash;
    var page := p.pages[job.name].page;
    BuiltDependenciesExist(Texts(p.sources), page);
    hide BuildPage;
    var p' := BuildOne(p, job.name, job.written, job.touched);
    assert Described(p'.infos[p.pages[job.name].output], page.title, page.content) == page;
  }

  lemma BuiltDependenciesExist(files: Files, page: Page)
    requires BuildPage(files, page).Ok?
    ensures BuildPage(files, page).value.dependencies <= files.Keys
  {
    BuiltDocument(files, page);
    ReadsExist(files, page, Tokens(page, files[Key(page.template)], 0), {});
  }

  lemma {:induction false} BuildAllKeeps(p: Project, jobs: seq<Job>)
    requires Sound(p)
    requires forall job | job in jobs :: job.name in p.pages
    ensures Sound(BuildAll(p, jobs))
    decreases |jobs|
  {
    if jobs == [] {
    } else {
      BuildOneKeeps(p, jobs[0]);
      BuildAllKeeps(BuildOne(p, jobs[0].name, jobs[0].written, jobs[0].touched), jobs[1..]);
    }
  }

  lemma StepKeeps(p: Project, step: Step)
    requires Sound(p) && Enabled(p, step)
    ensures Sound(Apply(p, step))
  {
    match step
    case Edit(path, text, stamp) => EditKeeps(p, path, text, stamp);
    case Delete(path) => DeleteKeeps(p, path);
    case BuildUpdated(jobs) => BuildAllKeeps(p, jobs);
    case _ => TrackingKeeps(p, step);
  }

  lemma {:induction false} RunsAreSound(states: seq<Project>, steps: seq<Step>, i: nat)
    requires IsRun(states, steps) && i < |states|
    ensures Sound(states[i])
  {
    if i == 0 {
      StartsSound(states[0]);
    } else {
      RunStep(states, steps, i - 1);
      hide *;
      RunsAreSound(states, steps, i - 1);
      StepKeeps(states[i - 1], steps[i - 1]);
    }
  }

  lemma RunStep(states: seq<Project>, steps: seq<Step>, i: nat)
    requires IsRun(states, steps) && i + 1 < |states|
    ensures i < |steps| && Enabled(states[i], steps[i]) && states[i + 1] == Apply(states[i], steps[i])
  {
  }

  lemma StartsSound(p: Project)
    requires Initial(p)
    ensures Sound(p)
  {
  }

  // ---- A page's build does not look at how its template path is spelt ----

  lemma {:induction false} TokensIgnoreTemplate(page: Page, template: string, s: string, i: nat)
    ensures Tokens(page.(template := template), s, i) == Tokens(page, s, i)
    decreases |s| - i
  {
    if i < |s| && s[i] == '\n' {
      TokensIgnoreTemplate(page, template, s, i + 1);
    } else if i < |s| {
      assert Lex(page.(template := template), s, i) == Lex(page, s, i);
      TokensIgnoreTemplate(page, template, s, Lex(page, s, i).next);
    }
  }

  lemma {:induction false} InlineIgnoresTemplate(files: Files, page: Page, template: string, tokens: seq<Token>,
                                                 anti: set<string>)
    ensures Inline(files, page.(template := template), tokens, anti) == Inline(files, page, tokens, anti)
    decreases files.Keys - anti, |tokens|
  {
    if tokens == [] {
    } else {
      InlineIgnoresTemplate(files, page, template, tokens[1..], anti);
      var token := tokens[0];
      if token.Input? && !token.raw && Key(token.path) in files && Key(token.path) !in anti {
        var text := files[Key(token.path)];
        TokensIgnoreTemplate(page, template, text, 0);
        InlineIgnoresTemplate(files, page, template, Tokens(page, text, 0), anti + {Key(token.path)});
      }
    }
  }

  lemma SameTemplateSameBuild(files: Files, page: Page, template: string)
    requires page.template != "" && template != "" && Key(template) == Key(page.template)
    ensures BuildPage(files, page.(template := template)) == BuildPage(files, page)
  {
    if Key(page.template) in files {
      var text := files[Key(page.template)];
      TokensIgnoreTemplate(page, template, text, 0);
      InlineIgnoresTemplate(files, page, template, Tokens(page, text, 0), {});
    }
  }

  // ---- Incremental equals clean ----

  /**
   A page found up to date has the output and the dependencies that building it from scratch
   over the current sources gives for the title it was last built with, which reads like its
   present title without quotes.
   */
  lemma UpToDateOutput(p: Project, name: string)
    requires Sound(p) && name in p.pages && Check(p, name) == UpToDate
    ensures var output, page := p.pages[name].output, p.pages[name].page;
            && output in p.builtAs && output in p.outputs && output in p.infos
            && Unquote(p.builtAs[output]) == page.title
            && BuildPage(Texts(p.sources), page.(title := p.builtAs[output])) ==
               Ok(Built(p.outputs[output], p.infos[output].dependencies))
  {
    hide BuildPage, Key, Unquote;
    var tracked := p.pages[name];
    var info := p.infos[tracked.output];
    var past :| Faithful(p, tracked, past);
    var title := p.builtAs[tracked.output];
    var described := Described(info, title, tracked.page.content);
    assert forall path | path in info.dependencies :: !Changed(p, info, path);
    assert Agree(past, Texts(p.sources), info.dependencies);
    BuildIsLocal(past, Texts(p.sources), described);
    BuiltHasTemplate(Texts(p.sources), described);
    assert tracked.page.(title := title) == described.(template := tracked.page.template);
    SameTemplateSameBuild(Texts(p.sources), described, tracked.page.template);
  }

  lemma BuiltHasTemplate(files: Files, page: Page)
    requires BuildPage(files, page).Ok?
    ensures page.template != ""
  {
  }

  /**
   The page's template now inlines to the same document under its present title as under the
   one it was last built with: the title is as it was, or is printed nowhere.
   */
  predicate TitleUnseen(p: Project, name: string)
    requires name in p.pages
  {
    var page, output := p.pages[name].page, p.pages[name].output;
    && output in p.builtAs && Key(page.template) in p.sources
    && (|| p.builtAs[output] == page.title
        || Document(Texts(p.sources), page.(title := p.builtAs[output])) == Document(Texts(p.sources), page))
  }

  /**
   Exactly when a page found up to date has the output a build would give it now. Otherwise it
   was last built under the same title in quotes, and prints it.
   */
  lemma UpToDateIsCleanIff(p: Project, name: string)
    requires Sound(p) && name in p.pages && Check(p, name) == UpToDate
    ensures HasCleanOutput(p, name) <==> TitleUnseen(p, name)
  {
    var output, page := p.pages[name].output, p.pages[name].page;
    UpToDateHasFiles(p, name);
    UpToDateOutput(p, name);
    hide BuildPage, Check, Sound, Key, Document;
    var before := page.(title := p.builtAs[output]);
    UnquoteChanges(before.title);
    if before.title == page.title {
      assert before == page;
    } else {
      UnquoteShortens(before.title);
      ShorterTitle(Texts(p.sources), before, page.title);
      assert before.(title := page.title) == page;
    }
  }

  lemma UpToDateHasFiles(p: Project, name: string)
    requires name in p.pages && Check(p, name) == UpToDate
    ensures Key(p.pages[name].page.template) in p.sources
  {
    hide Changed, Key;
  }

  lemma UnquoteShortens(s: string)
    requires AlreadyQuoted(s)
    ensures |Unquote(s)| < |s|
  {
  }

  lemma BuildOneLeavesOthers(p: Project, job: Job, name: string)
    requires WellTracked(p) && name in p.pages && job.name in p.pages && job.name != name
    ensures var p', output := BuildOne(p, job.name, job.written, job.touched), p.pages[name].output;
            && (output in p'.outputs <==> output in p.outputs)
            && (output in p.outputs ==> p'.outputs[output] == p.outputs[output])
            && (output in p'.infos <==> output in p.infos)
            && (output in p.infos ==> p'.infos[output] == p.infos[output])
            && (output in p'.builtAs <==> output in p.builtAs)
            && (output in p.builtAs ==> p'.builtAs[output] == p.builtAs[output])
  {
    hide Build;
  }

  /** Building leaves the other pages' outputs and info files alone. */
  lemma {:induction false} BuildAllLeavesOthers(p: Project, jobs: seq<Job>, name: string)
    requires WellTracked(p) && name in p.pages
    requires forall job | job in jobs :: job.name in p.pages && job.name != name
    ensures var p', output := BuildAll(p, jobs), p.pages[name].output;
            && (output in p'.outputs <==> output in p.outputs)
            && (output in p.outputs ==> p'.outputs[output] == p.outputs[output])
            && (output in p'.infos <==> output in p.infos)
            && (output in p.infos ==> p'.infos[output] == p.infos[output])
            && (output in p'.builtAs <==> output in p.builtAs)
            && (output in p.builtAs ==> p'.builtAs[output] == p.builtAs[output])
    decreases |jobs|
  {
    hide BuildOne;
    if jobs == [] {
    } else {
      BuildOneLeavesOthers(p, jobs[0], name);
      BuildAllLeavesOthers(BuildOne(p, jobs[0].name, jobs[0].written, jobs[0].touched), jobs[1..], name);
    }
  }

  /** What a successful job leaves for its page. */
  function FreshInfo(p: Project, job: Job): Info
    requires job.name in p.pages && Build(p, job.name).Ok?
  {
    var page := p.pages[job.name].page;
    Info(job.name, Unquote(page.title), page.template, Build(p, job.name).value.dependencies, job.written)
  }

  lemma {:induction false} BuildAllBuilds(p: Project, jobs: seq<Job>, k: nat)
    requires WellTracked(p) && k < |jobs|
    requires forall job | job in jobs :: job.name in p.pages
    requires forall i, j | 0 <= i < j < |jobs| :: jobs[i].name != jobs[j].name
    requires Build(p, jobs[k].name).Ok?
    ensures var p', output := BuildAll(p, jobs), p.pages[jobs[k].name].output;
            && output in p'.outputs && p'.outputs[output] == Build(p, jobs[k].name).value.output
            && output in p'.infos && p'.infos[output] == FreshInfo(p, jobs[k])
            && output in p'.builtAs && p'.builtAs[output] == p.pages[jobs[k].name].page.title
    decreases |jobs|
  {
    hide BuildPage, Rehash;
    var p1 := BuildOne(p, jobs[0].name, jobs[0].written, jobs[0].touched);
    assert p1.pages == p.pages && Build(p1, jobs[k].name) == Build(p, jobs[k].name);
    if k == 0 {
      assert forall job | job in jobs[1..] :: job.name != jobs[0].name;
      BuildAllLeavesOthers(p1, jobs[1..], jobs[0].name);
    } else {
      BuildAllBuilds(p1, jobs[1..], k - 1);
    }
  }

  lemma {:induction false} BuildAllSnoc(p: Project, jobs: seq<Job>, job: Job)
    requires forall j | j in jobs :: j.name in p.pages
    requires job.name in p.pages
    ensures forall j | j in jobs + [job] :: j.name in p.pages
    ensures BuildAll(p, jobs + [job]) == BuildOne(BuildAll(p, jobs), job.name, job.written, job.touched)
    decreases |jobs|
  {
    hide BuildOne;
    if jobs == [] {
      assert jobs + [job] == [job];
      assert [job][1..] == [];
    } else {
      assert (jobs + [job])[1..] == jobs[1..] + [job];
      BuildAllSnoc(BuildOne(p, jobs[0].name, jobs[0].written, jobs[0].touched), jobs[1..], job);
    }
  }

  /** Every selected page built. */
  predicate NoneFailed(p: Project, jobs: seq<Job>)
    requires forall job | job in jobs :: job.name in p.pages
  {
    forall job | job in jobs :: Build(p, job.name).Ok?
  }

  /** A page's output is what building it from scratch over the current sources gives. */
  predicate HasCleanOutput(p: Project, name: string)
    requires name in p.pages
  {
    && Build(p, name).Ok?
    && p.pages[name].output in p.outputs
    && p.outputs[p.pages[name].output] == Build(p, name).value.output
  }

  lemma BuildUpdatedIsClean(p: Project, jobs: seq<Job>, name: string)
    requires Sound(p) && JobsFor(p, jobs) && Problems(p) == {} && NoneFailed(p, jobs)
    requires name in p.pages
    ensures HasCleanOutput(BuildAll(p, jobs), name) <==> name in Selected(p) || TitleUnseen(p, name)
  {
    hide BuildPage, Faithful, TitleUnseen;
    var p' := BuildAll(p, jobs);
    assert Build(p', name) == Build(p, name);
    if name in Selected(p) {
      var k :| 0 <= k < |jobs| && jobs[k].name == name;
      BuildAllBuilds(p, jobs, k);
    } else {
      assert name !in Problems(p);
      UpToDateIsCleanIff(p, name);
      BuildAllLeavesOthers(p, jobs, name);
    }
  }

  lemma JobsArePages(p: Project, jobs: seq<Job>)
    requires JobsFor(p, jobs)
    ensures forall job | job in jobs :: job.name in p.pages
  {
  }

  /**
   When incremental equals clean, over whole runs. After any run of edits, deletions, title and
   template changes, tracking, restarts and builds, with edits stamped after every info file
   written before them, a build_updated with no problem and no failed page leaves a page with
   the output of a from-scratch build exactly when the page was selected or its title since it
   was last built makes no difference; and every other page was last built under its present
   title in quotes.
   */
  lemma IncrementalEqualsClean(states: seq<Project>, steps: seq<Step>, jobs: seq<Job>)
    requires IsRun(states, steps)
    requires var p := states[|steps|];
             JobsFor(p, jobs) && Problems(p) == {} && NoneFailed(p, jobs)
    ensures var p := states[|steps|];
            forall name | name in p.pages ::
              && (HasCleanOutput(BuildAll(p, jobs), name) <==> name in Selected(p) || TitleUnseen(p, name))
              && (name in Selected(p) || TitleUnseen(p, name) || UnquotedSince(p, name))
  {
    var p := states[|steps|];
    JobsArePages(p, jobs);
    hide *;
    RunsAreSound(states, steps, |steps|);
    forall name | name in p.pages
      ensures HasCleanOutput(BuildAll(p, jobs), name) <==> name in Selected(p) || TitleUnseen(p, name)
      ensures name in Selected(p) || TitleUnseen(p, name) || UnquotedSince(p, name)
    {
      BuildUpdatedIsClean(p, jobs, name);
      SkippedTitles(p, name);
    }
  }

  /** The page was last built under a quoted title, and its title now is that one without the quotes. */
  predicate UnquotedSince(p: Project, name: string)
    requires name in p.pages
  {
    var output := p.pages[name].output;
    output in p.builtAs && AlreadyQuoted(p.builtAs[output]) && p.pages[name].page.title == Unquote(p.builtAs[output])
  }

  lemma SkippedTitles(p: Project, name: string)
    requires Sound(p) && Problems(p) == {} && name in p.pages
    ensures name in Selected(p) || TitleUnseen(p, name) || UnquotedSince(p, name)
  {
    if name !in Selected(p) {
      assert name !in Problems(p);
      UpToDateHasFiles(p, name);
      UpToDateOutput(p, name);
      hide BuildPage, Check, Sound, Key, Document;
      UnquoteChanges(p.builtAs[p.pages[name].output]);
    }
  }

  // ---- A second call ----

  /** The hash file of a path is current. */
  predicate HashCurrent(p: Project, path: string)
    requires path in p.sources
  {
    path in p.hashes && p.hashes[path] == p.hash(p.sources[path].text)
  }

  /** Whether a file hashed by the jobs ends up current: it was hashed anew unless already checked. */
  lemma {:induction false} HashesAfter(p: Project, jobs: seq<Job>, path: string)
    requires p.mode.Hybrid? && path in p.sources
    requires forall job | job in jobs :: job.name in p.pages
    ensures HashCurrent(BuildAll(p, jobs), path) <==>
            HashCurrent(p, path) || (path !in p.checked && exists job | job in jobs :: path in job.touched)
    decreases |jobs|
  {
    hide BuildPage;
    if jobs == [] {
    } else {
      var p1 := BuildOne(p, jobs[0].name, jobs[0].written, jobs[0].touched);
      HashesAfter(p1, jobs[1..], path);
      HashAfterOne(p, jobs[0], path);
      hide BuildOne, HashCurrent;
      assert jobs == [jobs[0]] + jobs[1..];
    }
  }

  lemma HashAfterOne(p: Project, job: Job, path: string)
    requires p.mode.Hybrid? && path in p.sources && job.name in p.pages
    ensures var p1 := BuildOne(p, job.name, job.written, job.touched);
            && (HashCurrent(p1, path) <==> HashCurrent(p, path) || (path !in p.checked && path in job.touched))
            && (path in p1.checked <==> path in p.checked || path in job.touched)
  {
    hide BuildPage;
  }

  /** A dependency whose hash file is stale and which this process will not hash again. */
  predicate StuckHash(p: Project, path: string) {
    p.mode.Hybrid? && path in p.sources && path in p.checked && !HashCurrent(p, path)
  }

  /**
   What a second call selects. After a build_updated without problems or failures, and with no
   edits since, a page is selected again exactly when it was built and either its title is one
   that unquote changes, or, in hybrid mode, one of its dependencies was hashed earlier in the
   same process and its hash file is stale. In modified mode with plain titles nothing is.
   */
  lemma SecondCallSelects(p: Project, jobs: seq<Job>, name: string)
    requires WellTracked(p) && JobsFor(p, jobs) && Problems(p) == {} && NoneFailed(p, jobs)
    requires name in p.pages
    ensures Check(BuildAll(p, jobs), name) == Update <==>
              && name in Selected(p)
              && (|| AlreadyQuoted(p.pages[name].page.title)
                  || exists path | path in Build(p, name).value.dependencies :: StuckHash(p, path))
  {
    hide BuildPage, BuildAll, Check, Key;
    if name in Selected(p) {
      RebuiltPage(p, jobs, name);
    } else {
      assert name !in Problems(p);
      SkippedPage(p, jobs, name);
    }
  }

  lemma RebuiltPage(p: Project, jobs: seq<Job>, name: string)
    requires WellTracked(p) && JobsFor(p, jobs) && NoneFailed(p, jobs)
    requires name in Selected(p)
    ensures Check(BuildAll(p, jobs), name) == Update <==>
              || AlreadyQuoted(p.pages[name].page.title)
              || exists path | path in Build(p, name).value.dependencies :: StuckHash(p, path)
  {
    hide BuildPage, BuildAll, Key, Check, Changed, StuckHash, TimelyJob, Texts;
    var p' := BuildAll(p, jobs);
    var k :| 0 <= k < |jobs| && jobs[k].name == name;
    assert jobs[k] in jobs && TimelyJob(p, jobs[k]);
    BuildAllBuilds(p, jobs, k);
    SelectedHasFiles(p, name);
    CheckedAgain(p', jobs[k]);
    var info := FreshInfo(p, jobs[k]);
    forall path | path in info.dependencies
      ensures Changed(p', info, path) <==> StuckHash(p, path)
    {
      FreshDependency(p, jobs, k, path);
    }
  }

  /** Checking a page right after building it. */
  lemma CheckedAgain(p: Project, job: Job)
    requires job.name in p.pages && Build(p, job.name).Ok? && HasFiles(p, job.name)
    requires p.pages[job.name].page.name == job.name
    requires p.pages[job.name].output in p.infos && p.infos[p.pages[job.name].output] == FreshInfo(p, job)
    ensures Check(p, job.name) == Update <==>
              || AlreadyQuoted(p.pages[job.name].page.title)
              || exists path | path in FreshInfo(p, job).dependencies :: Changed(p, FreshInfo(p, job), path)
  {
    hide Build, Changed, Key, Unquote;
    UnquoteChanges(p.pages[job.name].page.title);
  }

  /** The content and template files of a page exist. */
  predicate HasFiles(p: Project, name: string)
    requires name in p.pages
  {
    var page := p.pages[name].page;
    Key(page.content) in p.sources && page.template != "" && Key(page.template) in p.sources
  }

  lemma SelectedHasFiles(p: Project, name: string)
    requires name in Selected(p)
    ensures HasFiles(p, name)
  {
    hide Changed, Key;
  }

  /** A dependency of a page just built has changed only when its hash file is stuck. */
  lemma FreshDependency(p: Project, jobs: seq<Job>, k: nat, path: string)
    requires k < |jobs| && jobs[k].name in p.pages && Build(p, jobs[k].name).Ok?
    requires forall job | job in jobs :: job.name in p.pages
    requires TimelyJob(p, jobs[k])
    requires path in Build(p, jobs[k].name).value.dependencies
    ensures Changed(BuildAll(p, jobs), FreshInfo(p, jobs[k]), path) <==> StuckHash(p, path)
  {
    hide BuildPage, BuildAll;
    assert jobs[k] in jobs && path in jobs[k].touched;
    BuiltDependenciesExist(Texts(p.sources), p.pages[jobs[k].name].page);
    if p.mode.Hybrid? {
      HashesAfter(p, jobs, path);
    }
  }

  lemma SkippedPage(p: Project, jobs: seq<Job>, name: string)
    requires WellTracked(p) && JobsFor(p, jobs)
    requires name in p.pages && Check(p, name) == UpToDate
    ensures Check(BuildAll(p, jobs), name) == UpToDate
  {
    hide BuildPage, BuildAll, Key;
    var p' := BuildAll(p, jobs);
    BuildAllLeavesOthers(p, jobs, name);
    var info := p.infos[p.pages[name].output];
    forall path | path in info.dependencies
      ensures !Changed(p', info, path)
    {
      assert !Changed(p, info, path);
      if p.mode.Hybrid? {
        HashesAfter(p, jobs, path);
      }
    }
  }

  lemma UnquoteChanges(s: string)
    ensures Unquote(s) == s <==> !AlreadyQuoted(s)
  {
  }
}
