# Nift, verified

Nift builds web sites. A page's template is expanded into its output: `@input` calls bring in further files, `@content` brings in the page's own content, and the column of a call becomes the indentation of what it brings in. What each page depended on is recorded, and `build_updated` later rebuilds only the pages whose records say they are out of date, with pools of threads. Around this core the program has its own scanners for calls and blocks, a variable store with scopes, control flow over a stack of variable layers, pagination, relative paths, and a line editor for its shell.

The project models that logic of the v1 sources under `legacy/` and proves what the code promises. The imperative parts (the scanners, the expander, the project, the variables, the interpreter, the editor, the string and path loops) are classes and methods with the source's fields and loops; each is proved against a function, and the theorems are about those functions. The worker pools are state machines whose threads interleave step by step.

| module | what it is |
|---|---|
| `Results`, `Text` | options and results; lines, joins, finds and whitespace images of strings |
| `Quoted`, `Params`, `PrintedCalls`, `EscapedArgs` | quoting, the two argument scanners, calls printed and arguments escaped read back |
| `Paths`, `Templates`, `Expansion` | path identity, tokens of a template, the inlined document and its layout |
| `InputGraph`, `Indentation`, `PageBuilds`, `PlainText` | when expansion succeeds and what it depends on, how it is indented, when a page builds and what it reports otherwise, what texts expand to |
| `Parsing` | the expander as an object that appends to its output and records files |
| `Incremental`, `Selection`, `Retitling`, `StalePages`, `ProjectInfo` | the project over time, which change selects which page, what a title does to a build, its faults, and `build_updated` as loops |
| `WorkPool`, `BuildPool`, `ParallelBuilds`, `PaginationPool` | threads that share work and a project, and the builds they amount to |
| `Pagination` | slices of items, page texts, stale pages |
| `Blocks`, `BlockText`, `PlainBlocks`, `BlockRoundTrip` | `read_block`, what a block is without scanning, with braces and without, printed blocks read back |
| `Variables`, `GuardedStore`, `VariableValues`, `StoredValues` | the variable store, its checks over whole runs, numbers, texts, vectors and declarations read back |
| `Calls`, `CallStack`, `FunctionScopes`, `CallScopes`, `CallEffects` | user-function calls and loops over the layer stack, compared with a call stack, the scopes their statements run under, and what they do to constants and privates |
| `LineEditor`, `KeyStrokes` | the shell's key loop, and what keys do to the text around the cursor |
| `Directories`, `StrFns` | paths between directories, string loops |

## Where the code does not do what it promises

Each of these is proved, with the exact condition under which the promise holds where there is one.

- A title built with quotes around it and then changed to the same title without them is not noticed: info files keep titles unquoted (`StalePages.UnquotingATitleGoesUnnoticed`, `StalePages.PrintedTitleGoesStale`). A page that was not selected is clean exactly when the title it was last built with is its title now, or its documents under the two are the same (`Incremental.IncrementalEqualsClean`, `ParallelBuilds.ParallelEqualsClean`). The other way round, a page just built with a quoted title is selected again by the next call (`Incremental.SecondCallSelects`).
- In hybrid mode a file hashed once is not hashed again in the same process, so after a second edit its pages are rebuilt every time until a restart (`Incremental.SecondCallSelects`, `StalePages.StuckHashStays`, `StalePages.SecondEditSticks`).
- `push_back`, `set`, `pop_back` and `erase` on vectors check for constants and not for privates (`GuardedStore.VectorRespectsPrivateIff`), and erasing from a vector of strings measures the vector of doubles of that name, so that valid ranges are refused (`GuardedStore.ErasesTextsIff`, `GuardedStore.FirstTextIsNotErased`).
- A constant can change. Called as members, these updates check `options` or `params` and then turn to the backup `__options` or `__params`, constant or not (`GuardedStore.ConstantsNeverChangeIff` says exactly when, `GuardedStore.ConstantBackupIsPushedOnto` shows it); and every call overwrites and erases the backups unchecked (`CallEffects.EnteringChangesBackupIff`, `CallEffects.LeavingErasesBackupIff`, `CallEffects.CallErasesConstant`). Other constants never change (`CallEffects.CodeKeepsConstants`).
- Decimal text assigned to a `std::llint` is accepted and lost (`VariableValues.AssignedNumberReadsBack`).
- A `for` loop left by `return` or `exit` leaves its layer of variables behind (`CallStack.LayersRestoredIff`, `CallStack.ReturnInForLeaks`). When that happens in a function with a layer of its own, the caller goes on under the function's scope, and what is private to that scope is in its reach (`CallScopes.ScopeStaysAfterLeak`).
- A function whose name has no dot runs under the empty scope when its call has a layer of its own, and otherwise under the first letter of its name, so that the privates of the page are out of its reach (`FunctionScopes.ScopesAgreeIff`, `FunctionScopes.PlainNameScopes`, `CallScopes.UnscopedCallIsRefused`).
- A comment line at the start of a bracketed block makes `read_block` expect its other lines to be indented twice: it reports an error (`BlockRoundTrip.CommentFirstReadsIff`, `BlockRoundTrip.CommentFirstFails`), or, when they are, takes indentation off that was part of the text (`BlockRoundTrip.CommentFirstAlters`); the text comes back only without indentation or without later lines (`BlockRoundTrip.CommentFirstReadsBackIff`).
- The indentation of a paginated page's later lines is collected backwards (`Pagination.PagesAlignIff`), and items are parsed for the wrong file: those of the first page after its first for file number 1 and not for the main output, and the first of each later page for the file of the page before it, or for the main output when pages hold one item (`Pagination.OwnFileIff`, `Pagination.ItemIsParsedFor`).
- `pathBetween` from a relative directory other than the current one to one from the root, or from the root to a relative one, leads astray (`Directories.PathBetweenCorrectIff`).
- A leading `./` is not ignored before a path that has one already, or whose directory is a lone slash (`Paths.DotSlashIsIgnoredIff`), and of more than two slashes before a file name only one (`Paths.DoubleSlashIsIgnoredIff`).
- Printed arguments that hold both kinds of quotes do not parse back (`PrintedCalls.PrintedArgsParseBackIff`).
- A printed title or name with a line break throws the tracked indentation off, and nothing else does (`Indentation.LayoutAlignedIff`).

## Model

| member | source | states |
|---|---|---|
| Quoted.UnquoteQuote | legacy/Quoted.cpp:39-108 | unquote undoes quote exactly on strings that do not already look quoted |
| Params.ReadParamsStr | legacy/Parser.cpp:16241-16469 | on arguments without `@`, the extent scanner succeeds exactly when a matching close bracket exists, stops just past it, appends the bracketed text, and asks for parsing exactly when an unescaped code character lies between |
| Params.SkipQuoted | legacy/Parser.cpp:16301-16385 | without `@`, its loop over a quoted section stops where the section ends |
| Params.ReadParam | legacy/Parser.cpp:16066-16219 | without `@`, the inner loop of `read_params` reads one parameter with its escapes, quotes and nesting |
| Params.ReadParams | legacy/Parser.cpp:16004-16239 | on texts without `@`, `read_params` gives the specified list of parameters, or the specified error |
| Params.ScannersAgree | legacy/Parser.cpp:16004-16469 | on arguments without `@`, whenever `read_params` succeeds with `,` the extent scanner succeeds and stops at the same close bracket, and when it finds no close bracket there is none |
| Params.ParamsStopAtClose | legacy/Parser.cpp:16004-16239 | the parameter loop stops exactly at the bracket the reference definition matches |
| Params.HasCodeIff | legacy/Parser.cpp:16241-16469 | arguments without escapes are asked to be parsed first exactly when a code character stands before the close bracket, in quotes or not |
| PrintedCalls.PrintedArgsParseBack | legacy/Quoted.cpp:39-90 | any list of printable strings, quoted and comma-joined in brackets, is read back as that list, whatever follows |
| PrintedCalls.PrintedArgsParseBackIff | legacy/Quoted.cpp:39-90 | a list of strings without escapes and breaks that quote does not take for quoted reads back exactly when each is non-empty and lacks one kind of quote |
| EscapedArgs.EscapedArgsReadBackIff | legacy/Parser.cpp:16066-16219 | whatever the texts, written between quotes with newlines, tabs, backslashes and quotes escaped, or without quotes and the separator escaped too, and separated by commas or semicolons, `read_params` gives just those texts; only an empty text between commas is reported as missing |
| EscapedArgs.OtherEscapesStay | legacy/Parser.cpp:16152-16177 | a backslash before any other letter is read as it stands |
| EscapedArgs.NestedBracketsStay | legacy/Parser.cpp:16140-16150 | matching brackets and what is between them belong to the argument, blanks before it do not |
| EscapedArgs.BreakIsLeftOut | legacy/Parser.cpp:16182-16193 | a line break inside an argument is left out with the blanks after it |
| Paths.DotSlashIsIgnoredIff | legacy/Path.cpp:36-58 | a leading `./` makes no other path exactly when the path has none yet and its directory is not a lone slash |
| Paths.KeyIsPathIff | legacy/Path.cpp:8-58 | a path is keyed by itself exactly when it does not start with `./` and its directory does not end in two slashes |
| Paths.DoubleSlashIsIgnoredIff | legacy/Path.cpp:8-58 | a second slash before the file name makes no other path exactly when there was only one before it |
| PageBuilds.ContentIsInput | legacy/Parser.cpp:5213-5244 | for a path without escapes, breaks, code characters or both kinds of quotes, the call `@content` prints and expands means an input of the content file, raw when asked |
| InputGraph.InliningSucceedsIff | legacy/Parser.cpp:2937-3029 | inlining succeeds exactly when everything reached exists and reads, and no chain of inputs meets a file twice |
| InputGraph.ReadsAreReachable | legacy/Parser.cpp:2963-3048 | the files a clean expansion records are exactly those inputs reach from the template |
| InputGraph.InlineIsLocal | legacy/Parser.cpp:2963-3048 | another file map agreeing on the files read inlines the same document |
| InputGraph.BuildIsLocal | legacy/Parser.cpp:1132-1174 | another file map agreeing on a built page's dependencies gives the same output and the same dependencies |
| InputGraph.DependenciesAreReachable | legacy/Parser.cpp:1132-1174 | the dependencies of a built page are its template and exactly the files reachable from it |
| InputGraph.ReadsExist | legacy/Parser.cpp:2963-2990 | every recorded file existed |
| InputGraph.FilesReadAreDependencies | legacy/Parser.cpp:2963-3048 | the files a build reads one by one, when it succeeds, are exactly the dependencies it records |
| InputGraph.ExpansionNestsEachFileOnce | legacy/Parser.cpp:2995-3006 | on any input graph, cyclic ones too, no file is nested in itself, and nesting is no deeper than there are files |
| Indentation.PutAlignedIff | legacy/Parser.cpp:1664-1708 | writing text keeps the tracked indentation right exactly when the text stays on its line |
| Indentation.LayoutAlignedIff | legacy/Parser.cpp:1463-1710 | in an expansion that succeeds, through pre blocks, raw inputs and nested files, the tracked indentation is at every moment the whitespace image of the line being written exactly when no title or name printed holds a line break |
| Indentation.NewlineHangsFromCaller | legacy/Parser.cpp:1480-1489 | a new line outside the call's own pre blocks starts with the whitespace image of the caller's column |
| Indentation.FileHangs | legacy/Parser.cpp:3008-3029 | with titles and names on one line, each line an inlined file itself starts outside its own pre blocks starts, in the output, with the whitespace image of the column of its input |
| Indentation.RawHangs | legacy/Parser.cpp:3031-3048 | each line after the first of a raw input starts with the whitespace image of its column, inside pre blocks too |
| Indentation.LinesHang | legacy/Parser.cpp:1463-1710 | with titles and names on one line, the line breaks of an expansion are just those listed, and the line after each starts as listed: with the column its file was input at, inside that file's own pre blocks with nothing, in a raw input with the raw input's column |
| Indentation.PreFreeLayoutHangs | legacy/Parser.cpp:1463-1489 | without pre tags nesting adds up: nested lines too hang from the indentation the outer call was entered with |
| Indentation.PreFreeFileHangs | legacy/Parser.cpp:3008-3029 | so without pre tags every line of an inlined file, with all that is nested in it, hangs from the column of its input |
| Indentation.LayoutSucceedsIff | legacy/Parser.cpp:1526-1710 | layout succeeds exactly on clean documents whose pre tags match within each file, and then the pre depth is as on entry |
| Indentation.PreFreeBalances | legacy/Parser.cpp:1526-1710 | a document without pre tags has nothing to mismatch |
| PageBuilds.PageBuildsIff | legacy/Parser.cpp:1001-1426 | a page with a template builds exactly when its files exist, its input graph is complete and acyclic, pre tags match, and its content is reached |
| PageBuilds.PageErrorIff | legacy/Parser.cpp:1001-1426 | which of a missing content file, a missing template file or an unused content is reported, each exactly when it is the first thing missing for a build |
| PageBuilds.PlainExpansion | legacy/Parser.cpp:2937-3029 | with well-read texts and no pre tags, expansion fails only by a missing file or an input loop that is really there |
| PageBuilds.InputErrorsAreReal | legacy/Parser.cpp:2937-3029 | in any inlined document a missing file is mentioned and missing, and a loop is a chain that meets a file twice |
| PageBuilds.ReportedInputErrorsAreReal | legacy/Parser.cpp:2937-3029 | so a missing file or loop that expanding a text reports is really there, whatever the texts |
| PageBuilds.BuildStaysAlignedIff | legacy/Parser.cpp:1428-1710 | through the whole build of a page the tracked indentation is right exactly when no title or name printed holds a line break |
| PageBuilds.PlainTitlesStayAligned | legacy/Parser.cpp:1664-1708 | titles and names without a line break print none |
| PageBuilds.BuiltLinesHang | legacy/Parser.cpp:1428-1710 | so every line of a built page's output starts as `LinesHang` says |
| PlainText.PlainCharExpands | legacy/Parser.cpp:1665-1697 | a character that means nothing to the scanner is put out as it is |
| PlainText.EscapeExpands | legacy/Parser.cpp:1493-1516 | after a backslash `@`, `#` and `$` are put out without it |
| PlainText.BackslashExpands | legacy/Parser.cpp:1517-1524 | any other backslash is put out |
| PlainText.NewlineExpands | legacy/Parser.cpp:1474-1489 | a newline starts a line on the base indentation |
| PlainText.TagExpands | legacy/Parser.cpp:1573-1607 | the `<` of a tag is put out as `&lt;` exactly inside a pre block and not before `code` or `/code` |
| PlainText.PreExpands | legacy/Parser.cpp:1588-1599 | a pre tag opens a block unless it stands in an HTML comment |
| PlainText.ClosePreExpands | legacy/Parser.cpp:1530-1544 | a closing one closes it, or is an error when the call has none open |
| PlainText.PreLeftOpen | legacy/Parser.cpp:1701-1708 | a file that leaves a pre block open is an error |
| PlainText.HyphenExpands | legacy/Parser.cpp:1608-1630 | a hyphen is put out, counts an HTML comment closed where it ends one, and is an error where it ends a raw one |
| PlainText.CommentExpands | legacy/Parser.cpp:1601-1603 | the start of an HTML comment counts it open |
| PlainText.RawCommentExpands | legacy/Parser.cpp:1546-1569 | a raw comment puts nothing out and takes the blanks and newlines after it along, unless an exclamation mark stops it |
| PlainText.ReferenceExpands | legacy/Parser.cpp:1656-1664 | a reference to the title or the name puts out just that |
| PlainText.PlainTextExpands | legacy/Parser.cpp:1463-1710 | a plain text expands to its lines, a last empty one apart, each after the first on the indentation of the call |
| PlainText.PlainFileExpands | legacy/Parser.cpp:3008-3029 | a plain file expands to its lines hung from the column of its input, and leaves the tag state alone |
| PlainText.FileCallMeansInput | legacy/Parser.cpp:1903-2460 | a call of `input` or `inject` with a printed path, raw or not, means an input of that path and ends after its semicolons, whatever follows |
| PlainText.FileCallExpands | legacy/Parser.cpp:2888-3050 | plain text around such a call expands to itself with the lines of the file in place of the call, hung from its column; a raw file may hold anything |
| PlainText.PlainPageBuilds | legacy/Parser.cpp:1001-1426 | a plain template around `@content`, raw or not, builds to its own text with the lines of the content in place of the call, hung from its column, and depends on just the two files |
| Parsing.ReadArguments | legacy/Parser.cpp:1903-2460 | the extent of a call and then its parameters, as specified |
| Parsing.ReadName | legacy/Parser.cpp:15194-15336 | reads the characters of a plain function name |
| Parsing.ReadCall | legacy/Parser.cpp:1903-2460 | reads a call's name, options, parameters and trailing semicolons; calls but input, inject and content are reported as unsupported |
| Parsing.SkipToTextLoop | legacy/Parser.cpp:14465-14499 | skips blanks, newlines and line comments |
| Parsing.Parser.Append | legacy/Parser.cpp:1490-1525 | text that stays on the line grows output and indentation together |
| Parsing.Parser.ReadTag | legacy/Parser.cpp:1526-1610 | escaping inside pre blocks and the depths at a tag, as layout has them |
| Parsing.Parser.ReadLt | legacy/Parser.cpp:1526-1610 | raw comments are skipped, any other tag is read |
| Parsing.Parser.ReadChar | legacy/Parser.cpp:1488-1710 | every branch of the scanner's loop but calls lays out one token; of variables, title and name |
| Parsing.Parser.AppendRaw | legacy/Parser.cpp:3031-3048 | a raw input is added line by line on the current indentation |
| Parsing.Parser.ReadInput | legacy/Parser.cpp:2888-3050 | an input of a path as given lays out the file it names, records it, and reports a missing file or a loop |
| Parsing.Parser.ProcessCall | legacy/Parser.cpp:1643-1665 | a call of input, inject or content lays out what its token stands for |
| Parsing.Parser.ReadAndProcess | legacy/Parser.cpp:1443-1710 | expanding a text comes to laying out its inlined document, with the same output, fields, recorded files or error |
| Parsing.Parser.Build | legacy/Parser.cpp:1001-1426 | `build` of a page with a template gives its output and dependencies as a function of the files, or its error |
| Incremental.RunsAreSound | legacy/ProjectInfo.cpp:4271-4600 | after any run, every info file is faithful: its output came from building the page it describes over sources that agree on every dependency unchanged since |
| Incremental.UpToDateOutput | legacy/ProjectInfo.cpp:4271-4600 | a page found up to date has exactly the output and dependencies a build now gives for the title it was last built with, which reads like its own without quotes |
| Incremental.UpToDateIsCleanIff | legacy/ProjectInfo.cpp:4271-4600 | a page found up to date has the output of a clean build exactly when the title it was last built with is its own, or its template inlines to the same document under both |
| Incremental.IncrementalEqualsClean | legacy/ProjectInfo.cpp:4853-5145 | after any run, a `build_updated` with no problems and no failures leaves a page with the output of a clean build exactly when it selected the page or the title since its last build makes no difference; every other page was last built under its present title in quotes |
| Incremental.SecondCallSelects | legacy/ProjectInfo.cpp:4271-4600 | a second call selects a page exactly when it was just built and has a quoted title or a dependency whose hash file is stuck |
| Incremental.HashesAfter | legacy/Parser.cpp:1135-1158 | which hash files are current after building: those that were, and those of files hashed for the first time in the process |
| Incremental.SameTemplateSameBuild | legacy/ProjectInfo.cpp:4417-4431 | two spellings of one template path build the same |
| Selection.EditSelectsIff | legacy/ProjectInfo.cpp:4442-4525 | an edit selects a page found up to date exactly when the file is among its recorded dependencies |
| Selection.OtherEditKeepsVerdict | legacy/ProjectInfo.cpp:4293-4525 | an edit of a file that is neither a dependency of a page nor its own leaves any verdict as it was |
| Selection.DeleteSelectsIff | legacy/ProjectInfo.cpp:4293-4472 | deleting a file makes a page found up to date a problem when it is its content or template, selects it when it is another dependency, and does nothing otherwise |
| Selection.EditAfterBuildSelectsIff | legacy/ProjectInfo.cpp:4853-5145 | of the pages just built, one edit makes the next `build_updated` select just those whose builds read the file |
| Selection.HashSelectsIff | legacy/ProjectInfo.cpp:4489-4524 | in hybrid mode another hash selects a page exactly when it is one of a dependency |
| Selection.LostHashSelectsIff | legacy/ProjectInfo.cpp:4495-4507 | and so does a hash file gone missing |
| Selection.ModifiedIgnoresHashes | legacy/ProjectInfo.cpp:4473-4489 | in modified mode hash files do not matter |
| Selection.RetitleSelectsIff | legacy/ProjectInfo.cpp:4403-4415 | another title selects a page, the same one does not |
| Selection.RetemplateSelectsIff | legacy/ProjectInfo.cpp:4308-4429 | another template selects a page unless only its path is spelt otherwise, and is a problem when it does not exist |
| Selection.OtherPagesKeepVerdict | legacy/ProjectInfo.cpp:4293-4525 | what is done to the tracking of one page leaves the verdicts of the others alone |
| Selection.TrackedIsSelectedIff | legacy/ProjectInfo.cpp:4293-4338 | a newly tracked page is selected exactly when its files exist |
| Retitling.InlineAlike | legacy/Parser.cpp:2937-3048 | under two titles a template inlines to the same document but for where the title is printed |
| Retitling.LayoutGrows | legacy/Parser.cpp:1463-1710 | layout of documents that differ in printed titles only fails or succeeds alike, and with the longer title grows by more unless the documents are equal |
| Retitling.ShorterTitle | legacy/Parser.cpp:1001-1426 | under a shorter title a page builds exactly when it did, from the same files, and to the same output exactly when the documents are equal |
| StalePages.UnquotingATitleGoesUnnoticed | legacy/Parser.cpp:1389-1420 | a page built with a quoted title and retitled without the quotes is found up to date unless a hash file is stuck, and is then clean exactly when the title is printed nowhere |
| StalePages.TitlePageBuilds | legacy/Parser.cpp:1001-1426 | a page whose template prints the title before an empty content file builds, to its title |
| StalePages.PrintedTitleGoesStale | legacy/Parser.cpp:1389-1420 | so a page that prints its title stays stale |
| StalePages.StuckHashStays | legacy/Parser.cpp:2966-2989 | a stuck hash file stays stuck through any builds and keeps its pages selected |
| StalePages.SecondEditSticks | legacy/Parser.cpp:2966-2989 | editing a file already hashed in the process gets it stuck, and a restart frees it |
| ProjectInfo.ProjectInfo.CheckPage | legacy/ProjectInfo.cpp:4300-4598 | one turn of `dep_thread` files the page under problem, updated or neither, as its check says |
| ProjectInfo.ProjectInfo.HashFiles | legacy/Parser.cpp:2966-2989 | hash files are written once per file and process, when they differ |
| ProjectInfo.ProjectInfo.BuildPageOf | legacy/ProjectInfo.cpp:3893-3972 | one turn of `build_thread` builds the page, writes its output and info file, and files it under built or failed |
| ProjectInfo.ProjectInfo.CheckAll | legacy/ProjectInfo.cpp:4899-4920 | the checking phase ends with exactly the problem pages and the selected pages |
| ProjectInfo.ProjectInfo.BuildUpdated | legacy/ProjectInfo.cpp:4853-5145 | `build_updated` builds each selected page once in some order; built and failed names are those that build and those that do not |
| WorkPool.StepKeeps | legacy/ProjectInfo.cpp:3893-3972 | every step of every thread keeps mutual exclusion, the iterator `counter` places past the start, each item held or finished exactly once, and the result sets and `noFinished` in step with what is finished |
| WorkPool.SharingIsExact | legacy/ProjectInfo.cpp:4282-4598 | under every schedule, when all threads have stopped every item was processed once and the result sets are those of a sequential pass |
| WorkPool.BuildPoolPartitions | legacy/ProjectInfo.cpp:3893-3972 | built and failed names partition the selected ones and `noFinished` is their number |
| WorkPool.StepProgresses | legacy/ProjectInfo.cpp:3893-3911 | every step that is not a wait for the lock brings the end closer |
| WorkPool.SomeThreadSteps | legacy/ProjectInfo.cpp:3893-3911 | until all threads have stopped one of them can step |
| BuildPool.StepKeeps | legacy/ProjectInfo.cpp:3893-3972 | every step of every thread that reads, claims, hashes, writes or records keeps outputs, info files, hash files and checked files in step with what the threads have done |
| BuildPool.DoneIsSettled | legacy/Parser.cpp:1132-1174 | once all threads have stopped, exactly the pages that build have been written, every file read is checked, and each newly checked one has a current hash file |
| BuildPool.SequentialSettles | legacy/Parser.cpp:1135-1158 | building the pages one after another, in any order, leaves just that |
| BuildPool.SettledIsUnique | legacy/Parser.cpp:1135-1158 | and only one project is so |
| BuildPool.ParallelIsSequential | legacy/ProjectInfo.cpp:3893-3972 | under every interleaving the project the threads leave is that of building the pages one after another in the order they were recorded, and built and failed names and `noFinished` say which build |
| BuildPool.StepProgresses | legacy/ProjectInfo.cpp:3893-3972 | one measure of what is left falls with every step that is not a wait for the lock |
| BuildPool.SomeBuilderSteps | legacy/ProjectInfo.cpp:3893-3911 | until all builders have stopped one of them can step |
| ParallelBuilds.CheckedInParallel | legacy/ProjectInfo.cpp:4282-4598 | `dep_thread`s under any schedule find the problems and selected pages a sequential pass finds |
| ParallelBuilds.BuiltInParallel | legacy/ProjectInfo.cpp:3893-3972 | `build_thread`s under any schedule leave the project as jobs for exactly the selected pages, each once, leave it |
| ParallelBuilds.ParallelEqualsClean | legacy/ProjectInfo.cpp:4853-5145 | after any run, in the project both pools leave under any schedules a page is clean exactly as `IncrementalEqualsClean` says |
| PaginationPool.StepKeeps | legacy/ProjectInfo.cpp:3821-3862 | every step keeps each claimed page held by one thread or written once, and the counter past the end by the threads that stopped |
| PaginationPool.PoolIsExact | legacy/ProjectInfo.cpp:3821-3862 | from counter 0 with some threads, every interleaving writes each page once, with its text, touches no other file, and ends with the counter at pages plus threads |
| PaginationPool.PagesReplaced | legacy/ProjectInfo.cpp:3821-3862 | removing the stale pages and letting the pool write the new ones leaves exactly the files of the new pages, each with its text |
| PaginationPool.StepProgresses | legacy/ProjectInfo.cpp:3821-3862 | every step claims a number or writes a page |
| Pagination.CeilQuotientIsLeast | legacy/Parser.cpp:1180-1181 | the number of pages is the least that holds the items |
| Pagination.SlicesConserve | legacy/Parser.cpp:1219-1239 | as many slices as the ceiling quotient, each non-empty and at most a page, all but the last full, and end to end the list |
| Pagination.Pagination.Split | legacy/Parser.cpp:1197-1212 | the text is cut at the first marker; without one it is an error |
| Pagination.CollectIndent | legacy/Parser.cpp:1205-1212 | the collected indent is the whitespace image of the line before the marker, backwards |
| Pagination.PagesAlignIff | legacy/ProjectInfo.cpp:3831-3846 | the later lines of a page's text start with the whitespace image of what stands before the marker exactly when the page has one line or the tabs there stand mirrored |
| Pagination.PageStandsInPlace | legacy/ProjectInfo.cpp:3831-3846 | a page's text is what stands before the marker, the page's lines with all but the first on the indent, and what stands after the marker |
| Pagination.MixedIndentMisaligns | legacy/Parser.cpp:1205-1212 | after a tab and a space no page of two lines or more does |
| Pagination.Pagination.MakePages | legacy/Parser.cpp:1216-1240 | the page loop parses each item for the file the parser stands on and makes one page of each slice, joined by the separator; it fails at the first item that does not parse, with the pages before it made |
| Pagination.OwnFileIff | legacy/Parser.cpp:1226-1231 | an item is parsed for its own page's file exactly when it is the very first, or stands on a later page and is not the first there |
| Pagination.ItemIsParsedFor | legacy/Parser.cpp:1226-1231 | after the first of its page an item is parsed for the file numbered one past the page, the first for the one before that, or for the main output when pages hold one item |
| Pagination.WritePage | legacy/ProjectInfo.cpp:3831-3846 | the line loop of `pagination_thread` puts the indent before every line of a page but the first |
| Pagination.PageFiles.RemoveStale | legacy/Parser.cpp:1242-1247 | exactly the pages from the new count up to the old one are removed |
| Blocks.SkipGapLoop | legacy/Parser.cpp:16534-16611 | the loop to a block's first character collects its indentation and counts lines, comments apart for the block's own line number |
| Blocks.ReadRestLoop | legacy/Parser.cpp:16632-16705 | the loop over later lines takes the indentation off each or fails as specified |
| Blocks.ReadBlock | legacy/Parser.cpp:16512-16711 | `read_block` gives the specified block, and `lineNo` goes up by the newlines consumed |
| BlockText.CloseIff | legacy/Parser.cpp:16614-16682 | the closing brace is the one with a brace-balanced text before it |
| BlockText.BracedBlockIs | legacy/Parser.cpp:16512-16711 | a bracketed block is read exactly when a brace closes it and every later line starts with the first one's indentation or is part of it; it stops just past that brace with the lines, indentation taken off |
| BlockText.BracedBlockErrorIff | legacy/Parser.cpp:16632-16705 | it reports a bad indent exactly when a line up to the closing brace, or to the end without one, neither starts with the first one's indentation nor is part of it, and otherwise a missing brace |
| PlainBlocks.PlainBlockIs | legacy/Parser.cpp:16512-16711 | a block without braces is its first line whole and the later lines taken, without their indentation, and ends where the last of these does |
| PlainBlocks.PlainBlockRead | legacy/Parser.cpp:16512-16711 | after blanks and newlines `read_block` reads such a block from the first other character, taking off what stands before it on its line |
| PlainBlocks.NoBlockLeft | legacy/Parser.cpp:16534-16611 | where only blanks and newlines follow there is no block |
| PlainBlocks.TakenLines | legacy/Parser.cpp:16632-16682 | the lines taken are those before the first that neither starts with the first line's indentation nor is part of it, or, if it comes earlier, those up to and with the first whose braces close more than was opened |
| PlainBlocks.TakenBreaks | legacy/Parser.cpp:16632-16682 | the text has a line break for each of them |
| BlockRoundTrip.PrintedBlockReadsBack | legacy/Parser.cpp:16512-16711 | balanced lines printed between braces with one indentation read back joined by newlines, stopping just past the matching brace; a newline is added only when the brace is as deep as the lines |
| BlockRoundTrip.CommentFirstReadsIff | legacy/Parser.cpp:16575-16611 | after a comment line such a block is read exactly when each later line is indented once more or is part of the indentation, and then comes back with that taken off too |
| BlockRoundTrip.CommentFirstReadsBackIff | legacy/Parser.cpp:16575-16611 | its text comes back exactly when there is no indentation or every later line is empty |
| BlockRoundTrip.CommentFirstFails | legacy/Parser.cpp:16575-16611 | two lines indented by a space after a comment line are an error |
| BlockRoundTrip.CommentFirstAlters | legacy/Parser.cpp:16575-16611 | with the second indented once more they are read, without that |
| Variables.Variables.Find | legacy/Variables.cpp:70-85 | the loop finds the innermost layer that declares the name |
| Variables.Variables.SetVarFromStr | legacy/Parser.cpp:14934-15115 | checks constants and privates, converts by type, and writes one value or fails |
| Variables.Variables.SetAll | legacy/Parser.cpp:6148-6190 | `=` sets the names in turn up to the first that fails |
| Variables.Variables.StepAll | legacy/Parser.cpp:6718-6809 | `++` and `--` step the names in turn with the same checks, printing apart |
| Variables.Variables.ChangeVector | legacy/Parser.cpp:11674-12310 | vector updates check constants only |
| Variables.Variables.Perform | legacy/Parser.cpp:6148-6190 | any operation leaves the layers and the failure the specification says |
| GuardedStore.GuardedOps | legacy/Parser.cpp:14934-14968 | assignments and increments change only variables the checks permit, the innermost of their names |
| GuardedStore.WriteReachesInnermost | legacy/Variables.cpp:70-85 | a permitted write changes the variable `find` returns and nothing else |
| GuardedStore.ConstantChangesIff | legacy/Parser.cpp:11715-11731 | an operation changes a constant exactly when it is a member update of `options` or `params` found in that layer, not constant there, that changes the backup of this name |
| GuardedStore.ConstantsNeverChangeIff | legacy/Variables.cpp:357-363 | over any run a constant stays constant while its layer lives, and keeps its value throughout exactly when no step is such an update |
| GuardedStore.ConstantBackupIsPushedOnto | legacy/Parser.cpp:11710-11771 | pushing onto `params` as a member changes a constant `__params` |
| GuardedStore.PrivatesNeedScope | legacy/Variables.cpp:364-368 | over any run a private variable stays private to its scopes and, vector updates apart, changes only while one of them is on top |
| GuardedStore.VectorChangesIff | legacy/Parser.cpp:11674-12310 | a vector update changes the vector meant, where its name is found, exactly when that name is no constant and there is something to change; and nothing else |
| GuardedStore.VectorRespectsPrivateIff | legacy/Parser.cpp:11674-12310 | a vector the checks forbid is left alone exactly when the update has nothing to change or the name it is made by is constant |
| GuardedStore.PrivateVectorIsPushedOnto | legacy/Parser.cpp:11710-11771 | so any function can push onto a private vector of the page |
| GuardedStore.ErasesTextsIff | legacy/Parser.cpp:12177-12305 | erasing from a vector of strings succeeds exactly when the range starts inside the vector of doubles of that name and lies within both; then the range is gone, otherwise nothing is |
| GuardedStore.TextsAreNeverErased | legacy/Parser.cpp:12177-12305 | with no vector of doubles of that name it always fails |
| GuardedStore.FirstTextIsNotErased | legacy/Parser.cpp:12177-12305 | a vector of one text whose first is refused |
| VariableValues.AssignedNumberReadsBack | legacy/Parser.cpp:14934-15115 | a number assigned as text reads back as the type holds it; decimal text assigned to a `std::llint` succeeds and leaves the variable as it was |
| VariableValues.DoubleReadsBack | legacy/Variables.cpp:456-498 | a double written to a numeric variable reads back as the type holds it |
| VariableValues.SetFromDoubleIsGuarded | legacy/Variables.cpp:456-467 | writing a double makes the same checks as assignment |
| VariableValues.StepsCancel | legacy/Parser.cpp:6718-6809 | `++` and `--` undo each other on integers and bools, and on doubles that are whole numbers within two to the 53rd before and after |
| StoredValues.AssignedTextReadsBackIff | legacy/Parser.cpp:14934-15115 | a permitted assignment to a string or a char fails exactly when a char is given no single character, and the variable otherwise reads as the text |
| StoredValues.NumberAssignedIff | legacy/Parser.cpp:14934-15115 | one to a number fails exactly when the text is no number of its kind |
| StoredValues.DecimalIsCut | legacy/Parser.cpp:14934-15115 | decimal text given to an integer is cut toward zero |
| StoredValues.OtherTypesAssignIff | legacy/Parser.cpp:14934-15115 | an assignment to a variable of any other type changes nothing, and fails exactly when the type does not start with `std::` |
| StoredValues.UnsetReadsZero | legacy/Variables.cpp:184-343 | a variable given no value reads as zero, false or empty |
| StoredValues.AssignReportsIff | legacy/Parser.cpp:14934-15115 | which failure an assignment reports: that no layer declares the name, that it is constant, that it is a private of another scope, or that the text does not fit |
| StoredValues.EqualsSetsEach | legacy/Parser.cpp:6148-6210 | `=` sets every string it names, and no other |
| StoredValues.EqualsStopsAtFailure | legacy/Parser.cpp:6148-6210 | when it fails it has set those before the first that cannot be set |
| StoredValues.PlusPlusAddsOne | legacy/Parser.cpp:6718-6812 | `++` adds one to a number for each time it is named, and nothing to any other |
| StoredValues.MinusMinusTakesOne | legacy/Parser.cpp:7053-7147 | `--` takes it off |
| StoredValues.CharStepsByOne | legacy/Parser.cpp:6718-6812 | on a character `++` gives the next one and `--` the one before |
| StoredValues.BoolsTurnOver | legacy/Parser.cpp:6718-6812 | on a bool both turn it over |
| StoredValues.OtherTypesStepIff | legacy/Parser.cpp:6718-6812 | on a variable of any other type they do nothing, and fail exactly when the type does not start with `std::` |
| StoredValues.TextsAfter | legacy/Parser.cpp:11674-12310 | what a vector of strings holds after `push_back`, `set` and `pop_back`, element by element, and when they fail |
| StoredValues.DoublesAfter | legacy/Parser.cpp:11674-12310 | what a vector of doubles holds after each update, element by element, and when it fails |
| StoredValues.VectorReportsIff | legacy/Parser.cpp:11674-12310 | when an update reports that no layer declares the name, that it is constant, or that it is no vector, and that it then changes nothing |
| StoredValues.DeclaredIsGuardedIff | legacy/Parser.cpp:7726-7848 | a variable declared has its type and first value, can be written exactly when it is not constant and, if private, under its scopes, and nothing else changes |
| StoredValues.RedeclaredIff | legacy/Parser.cpp:7811-7848 | a declaration fails exactly when the layer declares the name already |
| Calls.Interpreter.EnterCall | legacy/Parser.cpp:14108-14190 | a call adds its layer or scope, backs up and rebinds `params` and `options` |
| Calls.Interpreter.LeaveCall | legacy/Parser.cpp:14219-14262 | and reverts them |
| Calls.Interpreter.AddsScope | legacy/Parser.cpp:14089-14106 | the last of the options `s` and `!s` decides whether a call gets a layer |
| Calls.Interpreter.Call | legacy/Parser.cpp:14057-14263 | a whole call, as specified, its check for private functions and errors included |
| Calls.Interpreter.ExecuteTurns | legacy/Parser.cpp:9306-9396 | the loop of `while` and `do-while`: a layer around each turn |
| Calls.Interpreter.ExecuteFor | legacy/Parser.cpp:10007-10203 | `for` takes its own layer off only when it ends normally or by `break` |
| Calls.Interpreter.Execute | legacy/Parser.cpp:3305-3332 | control flow over the layer stack, as specified |
| CallStack.MatchesCallStack | legacy/Parser.cpp:14057-14263 | within a call, code that does not fail sees the params and options a stack of frames would show it, ends as it would, leaves the caller's frame as it was, and leaves behind exactly the counted layers |
| CallStack.CallIsTransparent | legacy/Parser.cpp:14124-14262 | from any page a call gives back the page's params and options with type, value and flags |
| CallStack.LayersRestoredIff | legacy/Parser.cpp:10007-10203 | the layer stack is restored exactly when no scoped `for` is left early |
| CallStack.OnlyForLeaks | legacy/Parser.cpp:9376-9395 | `if`, `while` and `do-while` restore it whatever way they end |
| CallStack.ForLeaksIff | legacy/Parser.cpp:10158-10203 | a `for` leaves a layer behind exactly when it has one and its turns end in anything but the loop's end |
| CallStack.ReturnInForLeaks | legacy/Parser.cpp:10158-10203 | a function that returns from within a `for` leaves its caller one layer more |
| CallScopes.BodyRunsUnderItsScope | legacy/Parser.cpp:14057-14190 | every statement a call executes, in blocks and loops too, finds the function's own scope on top, or that of a call it makes |
| CallScopes.FirstStatementFinds | legacy/Parser.cpp:14108-14118 | its first statement finds just the function's scope, in a layer of its own exactly when the call is scoped, and the layers below under their scopes |
| CallScopes.CallAssignsIff | legacy/Parser.cpp:14057-14190 | a call that assigns a variable of its caller succeeds exactly when the variable is not constant, the text fits, and, if it is private, the function's scope is one of its scopes |
| CallScopes.PrivateOutOfReach | legacy/Parser.cpp:14108-14118 | a private of the page is out of reach of a function of another scope |
| CallScopes.PrivateFunctionIff | legacy/Parser.cpp:14057-14088 | a private function runs as any other under one of its scopes, and from elsewhere only fails |
| CallScopes.LastOptionDecides | legacy/Parser.cpp:14089-14106 | the last of the options s and !s decides whether a call gets a layer |
| FunctionScopes.FindLastOfSpecial | legacy/Parser.cpp:5-25 | the backwards loop stops where specified |
| FunctionScopes.ScopesAgreeIff | legacy/Parser.cpp:14108-14119 | a function runs under the same scope with and without a layer of its own exactly when its name has a dot and no bracket after the last one ends a group or leaves one open |
| FunctionScopes.PlainNameScopes | legacy/Parser.cpp:14108-14119 | so without brackets exactly when there is a dot; without one the scope is empty with a layer and the first letter of the name without |
| FunctionScopes.NamesakesShareScope | legacy/Parser.cpp:7838-7847 | a variable declared under a prefix is private to the scope the functions of that prefix run under |
| CallScopes.UnscopedCallIsRefused | legacy/Parser.cpp:14108-14119 | a function without a dot in its name can set a private of the page when called with a layer and not without |
| CallScopes.ScopeStaysAfterLeak | legacy/Parser.cpp:14219-14262 | after a scoped function that returns from within a for loop the caller goes on under the function's scope |
| CallEffects.CodeKeeps | legacy/Parser.cpp:14057-14263 | over any code with calls, blocks and loops, however it ends, a variable keeps its type, flags and scopes, and changes only by the statements executed, unless named as calls name theirs |
| CallEffects.CodeKeepsConstants | legacy/Variables.cpp:357-363 | so a constant keeps its value and stays constant |
| CallEffects.CodeKeepsPrivates | legacy/Variables.cpp:364-368 | and a private variable stays private to the same scopes, and changes only by a statement under one of them or by a vector update meant for it |
| CallEffects.EnteringChangesBackupIff | legacy/Parser.cpp:14124-14150 | entering a call overwrites a backup exactly when the variable is a vector of strings with another value |
| CallEffects.LeavingErasesBackupIff | legacy/Parser.cpp:14219-14262 | leaving it erases the backup exactly when the caller's variable was a vector of strings and the backup is not empty |
| CallEffects.CallErasesConstant | legacy/Parser.cpp:14219-14262 | so a call of an empty function erases a page's constant `__params` |
| LineEditor.LineEditor.Press | legacy/Getline.cpp:656-1188 | every key does to the line what it does to a zipper, and keeps `linePos + bLinePos == str.size()` |
| LineEditor.LineEditor.PressAll | legacy/Getline.cpp:623-1192 | so does every sequence of keys |
| LineEditor.LineEditor.EraseWordLeft | legacy/Getline.cpp:901-921 | deletes blanks, one more character, and the letters and digits before it |
| LineEditor.LineEditor.EraseWordRight | legacy/Getline.cpp:922-945 | deletes blanks, a run of letters and digits, and one more character |
| LineEditor.LineEditor.MoveWordLeft | legacy/Getline.cpp:1025-1038 | moves over letters and digits and the character before them |
| LineEditor.LineEditor.MoveWordRight | legacy/Getline.cpp:1011-1024 | moves over one character and the letters and digits after it |
| LineEditor.LineEditor.Getline | legacy/Getline.cpp:598-671 | one call returns the zipper's text, and only that reaches the history |
| LineEditor.HistoryGrows | legacy/Getline.cpp:666-668 | over any calls, history never gains two equal neighbours, keeps what it holds, and ends in the last line entered |
| LineEditor.Ups | legacy/Getline.cpp:1042-1053 | so many ups show the history line so far back, or the first, and keep the unsent line |
| LineEditor.Downs | legacy/Getline.cpp:1054-1066 | so many downs show the line so far on, or the unsent one |
| LineEditor.UpsThenDowns | legacy/Getline.cpp:1042-1066 | as many downs as ups bring back the unsent line; from a history line they bring back the history's text, or land further down |
| LineEditor.MovesKeepText | legacy/Getline.cpp:861-1088 | no sequence of moves changes the text |
| LineEditor.WordLeftsReachStart | legacy/Getline.cpp:1025-1038 | enough word moves reach the start of the line |
| LineEditor.TypedThenErased | legacy/Getline.cpp:946-960 | typing a text and as many backspaces leaves the line as it was |
| KeyStrokes.TypedAfterLefts | legacy/Getline.cpp:866-876 | text typed after steps left goes in before just the characters stepped over |
| KeyStrokes.TypedAfterRights | legacy/Getline.cpp:887-897 | after steps right it goes in behind them |
| KeyStrokes.StepsCancelIff | legacy/Getline.cpp:866-897 | steps right take back as many steps left exactly when the start stopped none, or nothing stands behind the cursor, and the other way round |
| KeyStrokes.TypedAtTheEnds | legacy/Getline.cpp:861-886 | after home text goes in front of the line and after end behind it |
| KeyStrokes.TypedAlone | legacy/Getline.cpp:877-881 | cutting to the end leaves the text before the cursor, so that any text comes to stand alone |
| KeyStrokes.TabTypes | legacy/Getline.cpp:677-860 | a tab types its completion, or two spaces |
| KeyStrokes.WordLeftPasses | legacy/Getline.cpp:1025-1038 | a word step left passes a word and the character before it |
| KeyStrokes.WordRightPasses | legacy/Getline.cpp:1011-1024 | one to the right passes the next character and the word after it |
| KeyStrokes.WordStepsCancelIff | legacy/Getline.cpp:1011-1038 | a word step right takes back one left exactly when nothing stands behind the cursor, or something before it and no letter or digit right behind it |
| KeyStrokes.WordLeftDeletes | legacy/Getline.cpp:901-921 | deleting a word to the left takes out blanks, the character before those, and the word it ends |
| KeyStrokes.WordRightDeletes | legacy/Getline.cpp:922-945 | deleting one to the right takes out blanks, a word, and the character after it |
| Directories.DirDeque | legacy/Directory.cpp:34-46 | the pieces of a directory, each with its slash |
| Directories.PathBetween | legacy/Directory.cpp:48-70 | pops the shared pieces, then ups and the rest |
| Directories.PathBetweenCorrectIff | legacy/Directory.cpp:48-70 | resolving the result from the source gives the target exactly when both are from the root, both are not, or the source is the current directory |
| Directories.PathBetweenIsShortest | legacy/Directory.cpp:48-70 | no route of ups and then segments to the target has fewer components |
| Directories.RelativeToRootedGoesAstray | legacy/Directory.cpp:48-70 | from any relative directory but the current one, the result for a target from the root never leads to the root |
| Directories.RootedToRelativeGoesAstray | legacy/Directory.cpp:48-70 | from any directory from the root, the result for a relative target stays under the root |
| StrFns.IntoWhitespaceLoop | legacy/StrFns.cpp:12-25 | the loop gives the whitespace image |
| StrFns.JoinLoop | legacy/StrFns.cpp:143-157 | the loop joins the parts from a position on |
| StrFns.FindAndReplaceAll | legacy/StrFns.cpp:159-176 | the in-place loop ends, and gives the pieces around leftmost occurrences joined by the replacement |
| StrFns.SplitIsLeftmost | legacy/StrFns.cpp:159-176 | the pieces conserve the text and are cut at leftmost occurrences that do not overlap |
| StrFns.LeftmostIsSplit | legacy/StrFns.cpp:159-176 | no other pieces are |

## Left out

- PrintedArgsParseBack: strings with a backslash, newline or `@`, and strings that already look quoted, which quote leaves as they are.
- ReadParamsStr: arguments that hold `@`, whose comments the loop skips.
- SkipQuoted: comments inside a quoted section.
- ReadParam: comments between the characters of a parameter.
- ReadParams: texts that hold `@`.
- ContentIsInput: content paths with escapes, breaks, code characters or both kinds of quotes, which the model reports as unsupported when their printed call does not read back.
- FileHangs: titles and names with a line break, for which LayoutAlignedIff says that the tracked indentation fails; so too LinesHang and BuiltLinesHang.
- PreFreeLayoutHangs: documents with pre tags, where a nested file's lines start with its own column and the outer one's only if that column is counted from it; FileHangs and LinesHang hold there.
- PreFreeFileHangs: documents with pre tags, likewise.
- PageBuildsIff: pages with a blank template, which the code builds from their content alone.
- ReadCall: calls of other functions, and the options they take.
- ReadChar: references to variables other than title and name.
- ReadInput: `if-exists`, `!i`, and the search beside the reading file.
- ProcessCall: calls of other functions.
- ReadAndProcess: texts with other calls or references, which end in an error.
- CheckPage: dependencies a `.deps.json` file adds.
- BuildPageOf: pagination after a build.
- Build: blank templates, scripts and pagination.
- StepAll: does not print the first variable, nor fail when it cannot be printed.
- StepsCancel: doubles that are not whole numbers or beyond two to the 53rd, where rounding shows.
- MakePages: what parsing an item does besides giving its text.
- ScannersAgree: comments among the arguments of a call; the scanners treat a leading one differently.
- PathBetweenCorrectIff: directories with `.` or `..` components beyond a leading `./`, or with empty components.
- EscapedArgsReadBackIff: texts that hold `@`, whose comments the scanners skip, and bare texts with brackets of the call's kind.
- PlainPageBuilds: templates with more than one call, of which BuiltLinesHang says where the lines start; so too FileCallExpands.
- ReadBlock: a comment that no newline ends, from which the code goes back to the start of the text, is reported as OpenComment; the round trip is proved for bracketed blocks only.
- CallIsTransparent: the member functions of params and options that a first call defines in layer 0.
- Templates know plain text, escapes, pre blocks, comments, `@input`, `@inject`, `@content`, `$[title]` and `$[name]`; any other call is reported as Unsupported.
- The fallback of inputs to the reading file's directory, `if-exists`, the `!i` option, and the reads of `pathto*`, which expansion does not record.
- Blank templates, scripts, `.deps.json`, configuration changes and paginated pages in the incremental model; pure hash mode, whose hash file belongs to a dependency and not to a page.
- Info files are records, not JSON text; the hash is a parameter; outputs and info files are not among the sources, and pages have distinct outputs.
- Reading one past the end of a string is modelled as reading NUL; diagnostics carry no line numbers.
- Doubles are exact reals: rounding, range and NaN are not modelled.
- Integer widths: counters, indices and variables of type int are unbounded, and `atoi` and `strtod` are given as data.
- Printing by `++` and `--`, ExprTk and Lua access to variables, `forget`, streams and user-defined types.
- Conditions of `if` and of loops are given; user code run while evaluating one is not modelled.
- Reading a file, claiming it in `checkedHashFile` and writing one file are single steps of a building thread; sources do not change while it runs.
- The console lock, progress output, and `build_names` reporting; resetting the pagination counter between pages, which is taken to be 0 at the start.
- The editor's viewport, drawing and completion lookup; a completion is any text inserted at the cursor.
- Dates, watch lists, tracking commands, deployment and configuration upgrade.
