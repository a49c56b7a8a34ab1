# Syte: a verified model of its protocols, parsers and printers

Syte is a deployment host. This project models the parts of it whose meaning is fixed by the code
alone, and proves what they are for:

- **Deploy control** (`DeployControl`, `DeployTheorems`, `DeployOutcomes`, `DeployHost`): deploy tasks, the per-project
  lock, the registry of running tasks, done-callbacks and cancellation, as a transition system that
  interleaves at `await` points only. Everything is proved over all runs. `DeployHost` holds the
  synchronous stretches in the code's own imperative form; each is one step of the system.
- **Branch polling** (`BranchPolling`): the poller that issues a deploy when a branch head moves.
- **Redirects** (`RedirectPattern`, `RedirectCase`, `RedirectEngine`, `RedirectSubstitution`, `RedirectStore`,
  `RedirectImport`): the pattern compiler and matcher, substitution and query merging, the
  priority-ordered store, the import loop.
- **Caddyfile** (`CaddyLines`, `CaddyLineFacts`, `CaddyReading`, `CaddyRoutes`, `CaddyNesting`,
  `CaddyTheorems`, `CaddyFile`, `CaddySites`, `Domains`, `DomainNames`): the generator, the reader that goes by indentation alone,
  and an independent reader that counts braces.
- **Sliding-window limiters** (`SlidingWindow`, `RateLimiters`): both deque implementations against one naive
  specification over the whole history.
- **Wire framing** (`ByteStream`, `WebSocket`, `ContentLength`): RFC 6455 frames and Content-Length
  messages, over streams that come in pieces of any size.
- **Previews and ports** (`Previews`, `Ports`): preview addresses, start, stop, status, expiry; service ports.
- **Directory trees** (`FileTree`, `NextLayout`, `NextRouter`, `ZipIntake`, `ArchivePaths`) and **bounded capture**
  (`OutputLimits`).

What the operating system, the database, the network and the clock would answer is a parameter or a
free choice. Loops and updates in place are kept as methods, proved equal to a function of the old
state; what the code is for is then proved about that function.

## What the code does not do

Some expected properties are false of the code. Each is stated with the exact condition under which
it holds, or with a run on which it fails:

- Two `issue_deploy` calls can both pass the in-progress check. Whenever two callers are between their
  check and their registration, two issued tasks can become unfinished (`InterleavedCheckIssuesTwo`);
  they still never run the job at the same time.
- The lock is released before the project is read back (syte/deployment.py:373-374). A run is recorded
  rightly exactly when it reads back what its own job left (`OutcomeRightIff`). That is so when nobody
  else writes the project row (`OutcomeIsOwn`); from every state in which a run is about to read back,
  one such write leads to a wrong record (`ForeignWriteSpoils`), and a whole run that ends so from the
  empty start is given (`OutcomeCanBeBorrowed`).
- A finished task leaves a terminal row exactly when its handler was not cut off by a second
  cancellation, or the outcome had been written before the handler was entered (`EndIsTerminalIff`). So
  a cancellation inside a handler can leave a running row (`CutHandlerLeavesRunning`), but need not. A
  task that is cancelled before it starts leaves its row queued.
- A deploy that was issued, but whose notification raised, is not recorded by the poller. The bound on
  the deploys issued for a head holds over all runs exactly if that cannot happen (`IssuedBoundIff`);
  otherwise there can be any number (`RaisingRepeats`). The bound on the results "queued" always holds.
  A result "queued" can also stand for a project that was deleted meanwhile
  (`QueuedIsIssuedOrMissed`).
- `retry_after` can be too early when two limits share a key (`RetryAfterRightIff`).
- A pong is a well-formed frame exactly for pings of at most 125 bytes (`PongWellFormedIff`). It is sent
  without a mask, and from 128 bytes on its length is taken for the mask bit (`PongIsUnmaskedIff`). A
  ping of 256 bytes or more raises ValueError (`LongPingRaises`).
- `_read_message` looks for the empty line two bytes at a time, so it sees line ends at even offsets
  only. After a good header it returns exactly when there is one (`ReturnsIff`), else it waits forever.
  A message with further header lines is never read back (`FurtherHeadersIff`): with an even number of
  bytes in them, the line end of a header is taken for the empty line and the body is shifted
  (`EvenLineShiftsBody`); with an odd number the empty line is not seen (`OddLineSpins`), as with the
  usual `Content-Type` line (`ContentTypeSpins`).
- `normalize_domain` is idempotent exactly when its result has no white space around it
  (`NormalizeIdempotentIff`). A site whose name has white space around it is not read back
  (`UntrimmedNotReadBack`), and a start changes such a preview's name (`StartKeepsNameIff`).
- Groups are substituted one after the other, so a mark can be read where another reference was meant,
  or inside a captured value (`SubstitutionCanDiffer`). For a target and distinct group names,
  substitution is right for everything that the groups can capture exactly when no mark can be mistaken
  when its turn comes, and no group but the last is referred to (`AnySubstitutionRightIff`); for captures
  without a colon the first of these is enough, and needed (`SubstitutionRightIff`).
- A reorder that leaves rules out can produce equal priorities (`ReorderDistinctIff`).
- The import looks a source up as spelled, but stores it with its leading slashes merged
  (`LookUpRightIff`). It keeps the sources of every store distinct exactly when no rule that can be
  stored starts with two slashes (`ImportSafeIff`).
- A branch pass does not tally the checks that recorded a deployed head (`BranchPolling.Pass`).
- The `__MACOSX` filter of the ZIP intake looks at paths after the common root was dropped
  (`CountIsOutsideIff`, `BytesAreOutsideIff`).
- A site written for a route covers the route's host, but for a preview host with less than two dots behind a
  wildcard that previews share: the wildcard is one label longer than the host (`SiteCoversIff`). With a wildcard
  that stands for one label only, as in section 6.4.3 of RFC 6125, a host behind a wildcard is covered exactly
  when it has two dots (`OneLabelCoversIff`).
- A directory called `globals.css` is moved like the style sheet, and a page inside it then makes a router
  (`AcceptedIff`).
- A backslash just before a colon is lost from a redirect source (`SpellsSourceIff`).

## Model

| member | source | states |
|---|---|---|
| `DeployTheorems.ReachableInv` | syte/deployment.py:120-475 | every run of deploy steps keeps all invariants: locks match tasks inside the job, rows match their writers, writers are distinct, the registry and the deployed commits match |
| `DeployTheorems.MutualExclusion` | syte/deployment.py:125-133 | in every interleaving at most one task per project is inside the deploy job, and a lock is held exactly by such a task |
| `DeployTheorems.RegistryNamesLatest` | syte/deployment.py:449-455 | a finishing task removes only its own entry: after every run the registry names the task registered last, or nothing if that one is done |
| `DeployTheorems.OneIssuedTask` | syte/deployment.py:441-449 | if check and registration are never interleaved for a project, it never has two unfinished issued tasks |
| `DeployTheorems.InterleavedCheckIssuesTwo` | syte/deployment.py:442-449 | the condition is needed: whenever two callers are between check and registration, wherever they are, two unfinished issued tasks are possible |
| `DeployTheorems.RowWrittenByItsTask` | syte/deployment.py:369-433 | a step changes a deployment row only if it is a step of the one task of that row; it keeps project and commit, and its status never goes back |
| `DeployTheorems.RowsOnlyAdvance` | syte/deployment.py:369-433 | over any continuation of any run a row never returns to queued, never to running once terminal, and stays finished once it is |
| `DeployTheorems.EndIsTerminalIff` | syte/deployment.py:382-433 | a finished task whose body started left a terminal row, with a finish time, exactly when no handler was cut off before its write or the outcome had been written before; one whose body never started left its row queued |
| `DeployOutcomes.FinalRow` | syte/deployment.py:368-433 | in every run, read off its steps: when a task whose body began is done and no handler was kept from writing, its row is finished and says failed after an exception, cancelled after a cancellation, and else succeeded or failed by what was read back; when the body never began it says queued |
| `DeployOutcomes.HistoryAgrees` | syte/deployment.py:368-433 | what the steps of the run say of a task agrees with its await and its row at every point |
| `DeployOutcomes.ProjectSaysWhatWasRead` | syte/deployment.py:374-381 | the project write sets the commit of a run that had read the project as running, and status failed for any other, and nothing else |
| `DeployOutcomes.CommitIsWritten` | syte/deployment.py:374-381 | a run comes to that write exactly when it did not read the project as running, or has a commit |
| `DeployOutcomes.LandedWriteStands` | syte/deployment.py:371-433 | a cancellation that finds a task at a write which has landed leaves the rows and projects as that write would have |
| `DeployOutcomes.NothingElseIsWritten` | syte/deployment.py:399-433 | every other cancellation, and every exception, leaves them as they were |
| `DeployOutcomes.LockIsGivenUp` | syte/deployment.py:125-133 | either gives up the lock of its task, and no other |
| `DeployOutcomes.CallersAsk` | syte/deployment.py:436-447 | in every run a caller is after the project and the commit it entered with |
| `DeployOutcomes.RowIsItsCallers` | syte/deployment.py:447-447 | every deployment row is for the project and the commit of the caller that inserted it |
| `DeployOutcomes.TaskIsItsCallers` | syte/deployment.py:447-449 | every recorded task is for the project and the commit of the caller that registered it, and writes the row which that caller inserted |
| `DeployTheorems.CommitProvenance` | syte/deployment.py:374-381 | every non-empty last_deployed_commit is the commit of a run of that project that had read the project as running |
| `DeployTheorems.CommitSetByItsRun` | syte/deployment.py:378-381 | the step that changes last_deployed_commit is the project write of such a run, and the commit is not empty |
| `DeployTheorems.OutcomeRightIff` | syte/deployment.py:372-389 | in every run whatsoever, a record is right exactly when the project was read back as the run's own job had left it |
| `DeployTheorems.OutcomeIsOwn` | syte/deployment.py:372-389 | with serialised checks and no other writer of the project row it always is: the run is recorded as succeeded exactly when its own job left the project running |
| `DeployTheorems.ForeignWriteSpoils` | syte/deployment.py:373-389 | from every state in which a run is about to read its project back, one write by somebody else leads to a wrong record |
| `DeployTheorems.OutcomeCanBeBorrowed` | syte/deployment.py:373-389 | a run from the empty start whose own job stopped the project is recorded as succeeded and its commit as deployed |
| `DeployTheorems.CutHandlerLeavesRunning` | syte/deployment.py:399-415 | a cancellation inside an except handler can leave a finished task with a row that says running |
| `DeployTheorems.OneInFlightKept` | syte/deployment.py:436-475 | each step keeps: the unfinished issued task is the registered one, and no caller is past the check meanwhile |
| `DeployControl.LocksKept` | syte/deployment.py:125-133 | every step keeps the match between lock holders and tasks inside the job, also under cancellation and exceptions |
| `DeployControl.RowsKept` | syte/deployment.py:369-433 | every step keeps each row at what its writer has got to, and no two writers for one row |
| `DeployControl.RegistryKept` | syte/deployment.py:448-455 | every step keeps registry entries pointing at issued tasks of the project whose callback is still to run |
| `DeployControl.CommitsKept` | syte/deployment.py:378-381 | every step keeps the provenance of deployed commits |
| `DeployControl.EffectFitsRow` | syte/deployment.py:369-433 | one task step leaves the row fitting the new await point, and never lowers its rank |
| `DeployControl.EffectCommit` | syte/deployment.py:378-381 | only the project write of a successful run with a commit changes last_deployed_commit |
| `DeployHost.Host.CheckCaller` | syte/deployment.py:438-446 | the stretch up to create_deployment_run is the check step, and goes on exactly when the project exists and no registered task is unfinished |
| `DeployHost.Host.RegisterTask` | syte/deployment.py:448-455 | creating, registering and adding the callback is one uninterrupted step |
| `DeployHost.Host.ClearEntry` | syte/deployment.py:451-453 | the done-callback is the clear step: it drops the entry only if it is still its own |
| `DeployHost.Host.CancelDeploy` | syte/deployment.py:469-475 | cancellation succeeds exactly when the registered task is unfinished, and requests the cancellation of that task only |
| `DeployHost.Host.RunUpToJob` | syte/deployment.py:369-373 | from the start of the body to the end of the job, each stretch, written out, is one step of the system |
| `DeployHost.Host.RunAfterJob` | syte/deployment.py:374-433 | reading back, the project write and the outcome: each stretch, written out, is one step of the system |
| `DeployHost.Host.RunToEnd` | syte/deployment.py:391-433 | the announcement and the handlers' writes and announcements: each stretch, written out, is one step of the system |
| `DeployHost.Host.RunTask` | syte/deployment.py:369-433 | every stretch of a task between two awaits is one step of the system |
| `DeployHost.Host.CancelTask` | syte/deployment.py:399-415 | a cancellation that arrives at any await, with what it releases, lands and leads to written out, is one step of the system |
| `BranchPolling.QueuedBounded` | syte/branch_deploy.py:42-69 | over any run, results "queued" number at most one plus head moves plus resets of the recorded commit, whatever issue_deploy answers or raises |
| `BranchPolling.IssuedBounded` | syte/branch_deploy.py:42-69 | deploys issued number at most that plus those whose notification raised |
| `BranchPolling.IssuedBoundIff` | syte/branch_deploy.py:59-67 | the bound without that term holds over all runs exactly if issue_deploy cannot raise once it has registered its task |
| `BranchPolling.RaisingRepeats` | syte/branch_deploy.py:59-67 | if it can, any number of deploys of one head is possible without a move or a reset |
| `BranchPolling.StepSpendsCredit` | syte/branch_deploy.py:42-69 | each step returns "queued" only as the remaining credit allows; only head moves and resets earn credit |
| `BranchPolling.QueuedIsIssuedOrMissed` | syte/branch_deploy.py:57-69 | results "queued" count exactly the deploys issued without an exception and the answers that the project is missing, but for one still being recorded |
| `BranchPolling.RecordedHeadIssuesNothing` | syte/branch_deploy.py:48-51 | while the recorded head stays, no run of checks issues a deploy or changes the record, whatever gets deployed: a rollback is not undone |
| `BranchPolling.DeferredIsRetried` | syte/branch_deploy.py:64-69 | a deferred check changes nothing, and the next one that is not refused issues the deploy |
| `BranchPolling.ProjectRow.Check` | syte/branch_deploy.py:42-69 | one uninterrupted check is a run of these steps, for every answer of issue_deploy; its result and the row are characterised by the commits it saw |
| `BranchPolling.Pass` | syte/branch_deploy.py:72-86 | each tally is the number of projects with its result, where a check that raised counts as unavailable; the tallies miss exactly the checks that recorded a deployed head, or were skipped |
| `RedirectPattern.MatchSound` | syte/main.py:1560-1579 | whatever the backtracking match captures fits the rule |
| `RedirectPattern.MatchComplete` | syte/main.py:1560-1579 | if any values fit, the engine matches, and captures the leftmost-longest choice |
| `RedirectPattern.MatchIff` | syte/main.py:1560-1579 | case-sensitive: a match exists exactly when the path is the rule with one value per group, parameters non-empty and slash-free; putting the captured values back rebuilds the path |
| `RedirectPattern.FitsIffFilled` | syte/main.py:1563-1577 | fitting a path is the same as rebuilding it from the values |
| `RedirectPattern.ParamTokensSpellSource` | syte/main.py:1563-1565 | the compiled tokens of a source with parameters spell the source, with names as long as they can be, if no backslash stands just before a colon |
| `RedirectPattern.SpellsSourceIff` | syte/main.py:1563-1565 | they spell it exactly when no backslash stands just before a colon |
| `RedirectPattern.ParamRuleMatchesIff` | syte/main.py:1551-1579 | from the stored source to the verdict, for every source with a colon: the rule matches exactly when it compiles, its names are valid and distinct and the path is the rule with values put in |
| `RedirectPattern.StarMatchIff` | syte/main.py:1566-1568 | a one-star rule matches exactly by prefix and suffix, and captures what is between |
| `RedirectPattern.StarRuleMatchesIff` | syte/main.py:1551-1579 | from the stored source to the captured text: a rule with one star matches exactly by prefix and suffix |
| `RedirectPattern.SlashMatchIff` | syte/main.py:1569-1577 | the engine matches a literal with an optional slash exactly at the literal and at the literal with a slash |
| `RedirectPattern.LiteralRuleMatchesIff` | syte/main.py:1551-1579 | from the stored source to the verdict: a literal rule matches exactly its base with or without one slash, or exactly its source |
| `RedirectPattern.TrailingSlashIgnored` | syte/main.py:1570-1572 | one slash at the end of a path makes no difference to a slash-ignoring literal rule |
| `RedirectPattern.SourceOfIs` | syte/main.py:1551-1560 | a source is trimmed and starts with a slash |
| `RedirectPattern.ValidNamesIff` | syte/main.py:1563-1579 | a pattern is valid exactly when no name starts with a digit, none comes twice, and there is at most one star |
| `RedirectPattern.TwoStarsNeverMatch` | syte/main.py:1566-1579 | a rule with two stars matches nothing |
| `RedirectPattern.BoundByName` | syte/main.py:1582-1589 | the captured values are bound to the names of their parameters, in order |
| `RedirectCase.RuleIgnoresCaseIff` | syte/main.py:1560-1579 | a rule of any kind that ignores case matches exactly the paths that it would match in some case if case counted |
| `RedirectCase.CaseMakesNoDifference` | syte/main.py:1560-1579 | changing the case of any letters of the path, by code points, makes no difference to such a rule |
| `RedirectCase.IgnoreCaseIff` | syte/main.py:1560-1579 | the same for the matcher; what it captures puts the path together again up to case |
| `RedirectCase.LiteralRuleInAnyCase` | syte/main.py:1569-1579 | a literal rule matches exactly the paths that are its base, one slash more or less where slashes are ignored, letter for letter or up to case |
| `RedirectCase.SameIs` | syte/main.py:1560-1578 | two characters agree exactly when they are equal, or case is ignored and they are a capital and its small letter by code points |
| `RedirectSubstitution.SubstitutionRightIff` | syte/main.py:1582-1589 | for a target and group names, substitution is right for all captures without a colon exactly when no mark can be mistaken when its turn comes |
| `RedirectSubstitution.AnySubstitutionRightIff` | syte/main.py:1564-1589 | for a target and distinct group names, substitution is right for all captures, colons or not, exactly when no mark can be mistaken and no group but the last is referred to |
| `RedirectSubstitution.OnlyLastIsRight` | syte/main.py:1582-1589 | then it is right for all values whatsoever |
| `RedirectSubstitution.UsedEarlierIsWrong` | syte/main.py:1582-1589 | if an earlier group is referred to, a capture that is the mark of a later one makes it wrong |
| `RedirectSubstitution.SafeIsRight` | syte/main.py:1582-1589 | then it is right for all values without a colon, empty ones too |
| `RedirectSubstitution.UnsafeIsWrong` | syte/main.py:1582-1589 | otherwise some captures make it wrong |
| `RedirectSubstitution.ParseSpells` | syte/main.py:1589-1589 | every target is made of such pieces |
| `RedirectSubstitution.StarSubstitution` | syte/main.py:1586-1587 | the star group is substituted for every star, whatever it captured |
| `RedirectEngine.SubstitutionCanDiffer` | syte/main.py:1582-1589 | two inputs on which it does not |
| `RedirectEngine.ReplaceIsPutIn` | syte/main.py:1587-1589 | one text replacement puts the value in for exactly the references to its group |
| `RedirectEngine.ReplaceRightIff` | syte/main.py:1587-1589 | replacing one group by a value without a colon is right exactly when no other reference begins with its mark |
| `RedirectEngine.ReplaceAlwaysRightIff` | syte/main.py:1587-1589 | the same condition is exact over all values, with colons or without |
| `RedirectEngine.MergeQuery` | syte/main.py:1592-1599 | the target keeps its own parameters, and those of the request it does not set follow, once |
| `RedirectEngine.AddedKeys` | syte/main.py:1596-1598 | no parameter of the request is lost, and nothing else is added |
| `RedirectEngine.AddedInOrder` | syte/main.py:1596-1598 | what is added are the first occurrences of parameters that the target does not set, in the order of the request |
| `RedirectEngine.Simulate` | syte/main.py:1547-1626 | the winner is the first active matching rule; destination, merged query and loop flag are what they should be; no match means no active rule matches |
| `RedirectStore.SortAscending` | syte/database.py:923-929 | a listing has exactly the rows it was made from, in strictly ascending priority when priorities are distinct |
| `RedirectStore.SortOrdered` | syte/database.py:923-929 | also with equal priorities a listing goes by priority, then by creation, the newest first |
| `RedirectStore.ListingIs` | syte/database.py:923-929 | there is only one such listing |
| `RedirectStore.CreateGoesLast` | syte/database.py:1021-1038 | a new rule is listed last |
| `RedirectStore.PriorityOfNew` | syte/database.py:1021-1038 | a new rule has priority 1 in a project without rules, else the one after the highest |
| `RedirectStore.CreateLeavesOthers` | syte/database.py:1021-1038 | and no other project notices |
| `RedirectStore.DeleteKeepsOrder` | syte/database.py:1100-1106 | deleting keeps the order of the other rules, and every other listing |
| `RedirectStore.ReorderedRows` | syte/database.py:1111-1115 | the updates one by one leave each requested rule at its last place in the request |
| `RedirectStore.ReorderDistinctIff` | syte/database.py:1109-1117 | a reorder keeps priorities distinct exactly when no rule left out already has a priority that is handed out |
| `RedirectStore.ReorderListsAsRequested` | syte/database.py:1109-1117 | after a request with every rule once, the listing is exactly the requested order, and other projects are untouched |
| `RedirectStore.ActivateKeepsOrder` | syte/database.py:1126-1137 | enabling and disabling changes no rule's place |
| `RedirectStore.RunKeepsGood` | syte/database.py:1021-1147 | from an empty store, over any run of creates, bulk changes, deletions and complete reorders, ids and priorities stay distinct |
| `RedirectStore.NothingAskedFor` | syte/database.py:1121-1122 | skipping the statement for an empty request changes nothing |
| `RedirectStore.Store.CreateRule` | syte/database.py:1021-1038 | with a new id the project's listing is the old one and the new rule, and no other listing changes |
| `RedirectStore.Store.ReorderRules` | syte/database.py:1109-1117 | the update loop gives every requested row its place and changes nothing else |
| `RedirectStore.Store.BulkUpdate` | syte/database.py:1120-1147 | deleting leaves exactly the other rows, in order; activating and deactivating set the activity of exactly the named rows of the project to on and off and change nothing else; the count is their number |
| `RedirectStore.Store.TestUrl` | syte/main.py:1740-1751 | the test endpoint's winner is the first active matching rule of the listing |
| `RedirectImport.ImportRules` | syte/main.py:1765-1800 | the import loop on the store: rows, count, numbered errors, and where it raises |
| `RedirectImport.ImportAppends` | syte/main.py:1772-1800 | an import appends to the listing in the order of the request and changes nothing else, even when it raises halfway |
| `RedirectImport.EveryRuleAccountedFor` | syte/main.py:1772-1800 | every rule that is reached is stored or refused once, in order, with its number and for the reason that held at its turn |
| `RedirectImport.RaisesAtUnreadable` | syte/main.py:1772-1800 | what raises is the first rule after those accounted for, which has a source and a target but no readable code |
| `RedirectImport.AddedAreRequested` | syte/main.py:1786-1797 | every row that an import adds is a rule of the request, with its source, target, activity and query flag; it ignores case and trailing slashes |
| `RedirectImport.CleanSourceIs` | syte/database.py:1016-1016 | the stored source is the trimmed one with its leading slashes merged into one |
| `RedirectImport.LookUpRightIff` | syte/main.py:1781-1785 | looking up the spelled source decides rightly whether the stored one is new, for all stores, exactly when it does not start with two slashes |
| `RedirectImport.StoredAsSpelledIff` | syte/database.py:1016-1016 | a trimmed path with a leading slash is stored as it is exactly when it does not start with two slashes |
| `RedirectImport.ImportKeepsSourcesDistinct` | syte/main.py:1768-1798 | an import of which no storable rule is of that kind never stores a source twice, and what it has seen is what the store holds |
| `RedirectImport.ImportSafeIff` | syte/main.py:1768-1798 | an import keeps the sources of every store distinct exactly when no rule that can be stored starts with two slashes; a rule can be stored when it is complete, readable, and no unreadable rule before it has its spelling |
| `CaddyFile.FileReadsBack` | syte/caddy_routes.py:305-346 | for every mode and every project list with trimmed names, and a policy and origin without braces and line breaks: reading the generated text back by indentation gives the intended sites in order; the brace-depth reader gives the same; depth never goes negative and ends at 0 |
| `CaddyFile.UntrimmedNotReadBack` | syte/caddy_monitor.py:44-57 | trimmed names are needed: for every project list and mode, a text with an intended site that has white space around it is not read back |
| `CaddyFile.NoRouteLost` | syte/caddy_routes.py:305-346 | under the same conditions every collected route yields exactly one reverse_proxy to its own port, under its own host, in every mode |
| `CaddyFile.PairsConserved` | syte/caddy_routes.py:333-345 | zones, their sorting and the apex filter neither drop nor repeat a route |
| `CaddyFile.GroupingConserves` | syte/caddy_routes.py:115-119 | grouping by zone keeps every route exactly once |
| `CaddyFile.ApexBelowConserve` | syte/caddy_routes.py:336-337 | the apex filter drops nothing |
| `CaddyFile.ZonesSorted` | syte/caddy_routes.py:333-334 | zones come strictly sorted, and are exactly those of the routes |
| `CaddyFile.WildcardCoversItsHosts` | syte/caddy_routes.py:337-341 | every host behind the wildcard of zone z ends with "." and z |
| `CaddySites.ZoneDots` | syte/caddy_routes.py:46-51 | the zone of a host name with dots has exactly one, that of a host without dots none |
| `CaddySites.ZoneIsOnly` | syte/caddy_routes.py:46-51 | the zone is the only end of the host, taken after a dot or whole, with that many dots |
| `CaddySites.BelowItsZoneIff` | syte/caddy_routes.py:46-51 | a host is strictly below its zone exactly when it has two dots or more, and is its own zone otherwise |
| `CaddySites.SitesHold` | syte/caddy_routes.py:314-346 | in every mode the site that is meant for a route is among the sites of the file |
| `CaddySites.SiteCoversIff` | syte/caddy_routes.py:314-346 | that site covers the host of the route, but for preview hosts with less than two dots behind a shared wildcard |
| `CaddySites.OneLabelCoversIff` | syte/caddy_routes.py:314-346 | where a wildcard stands for one label, as in section 6.4.3 of RFC 6125, it does so exactly when the host is not behind a wildcard or has two dots |
| `CaddySites.RouteForIs` | syte/caddy_routes.py:66-100 | a domain gives a route exactly when its normal form is a host name and the port is set, with that name and port |
| `CaddySites.CollectedIff` | syte/caddy_routes.py:66-100 | production, preview and custom routes come from the production domain, the preview domain with its own port, and the enabled custom domain of some project |
| `CaddySites.FrameHeadersSay` | syte/caddy_routes.py:133-152 | the preview header block takes away six headers by name and sets the policy, the origin and the resource policy |
| `CaddySites.OriginIs` | syte/caddy_routes.py:133-152 | the origin is the given one without quotes and line breaks, or https://sycord.com when nothing is left |
| `CaddySites.DedicatedTlsSays` | syte/caddy_routes.py:27-43 | the dedicated TLS block names the DNS provider, the resolvers and the timeout |
| `CaddySites.ProxySays` | syte/caddy_routes.py:155-166 | a proxy block for a preview drops seven headers by name, any other has no such lines |
| `CaddySites.PreviewBlocksSay` | syte/caddy_routes.py:169-244 | in every kind of block a preview has these header lines, and an isolated one its own certificate |
| `CaddySites.ProductionBlocksSay` | syte/caddy_routes.py:169-222 | a block for a production host hands over to its port and does nothing else |
| `CaddySites.WildcardSays` | syte/caddy_routes.py:261-283 | a wildcard zone gets its certificate by DNS |
| `CaddySites.MatcherNameIs` | syte/caddy_routes.py:54-63 | a matcher name is the host name with dots and hyphens as underscores, cut at 56 characters |
| `CaddyFile.FilePart` | syte/caddy_routes.py:314-346 | the whole file is well nested, with the intended sites and the intended routes in order |
| `CaddyFile.CollectedGood` | syte/caddy_routes.py:66-100 | collected host names are safe to write when the normal forms of stored domains have no white space around them |
| `CaddyTheorems.ZoneOfHost` | syte/caddy_routes.py:46-51 | a host is its own zone or ends with "." and the zone |
| `CaddyTheorems.HandleServes` | syte/caddy_routes.py:169-198 | a handler is well nested and serves its own host at its own port, whatever came before |
| `CaddyTheorems.WildcardPart` | syte/caddy_routes.py:261-283 | a wildcard zone is one site that serves each of its routes once |
| `CaddyTheorems.CustomPart` | syte/caddy_routes.py:103-112 | a custom TLS block is one site that serves its route |
| `CaddyTheorems.HostPart` | syte/caddy_routes.py:201-222 | a host block is one site that serves its route |
| `CaddyTheorems.PreviewPart` | syte/caddy_routes.py:225-244 | an isolated preview block is one site that serves its route |
| `CaddyTheorems.ApexPart` | syte/caddy_routes.py:286-302 | an apex block is one site that serves its route; no good host is skipped |
| `CaddyNesting.FrameHeadersLead` | syte/caddy_routes.py:133-152 | the preview header block is well nested and serves nothing, for every policy and origin without braces and line breaks |
| `CaddyNesting.ReverseProxyLeads` | syte/caddy_routes.py:155-166 | a reverse_proxy block is well nested and serves the current host once |
| `CaddyNesting.DedicatedTlsLeads` | syte/caddy_routes.py:27-43 | the dedicated TLS block is well nested and serves nothing |
| `CaddyReading.ReadersAgree` | syte/caddy_monitor.py:36-57 | on all well-nested lines the indentation-only reader and the brace-depth reader find the same sites, namely those meant |
| `CaddyReading.TextReadBack` | syte/caddy_monitor.py:44-57 | the same for the joined and re-split text |
| `CaddyReading.SplitJoin` | syte/caddy_monitor.py:45-45 | splitting the joined lines gives them back, but for an empty last one |
| `CaddyReading.RoutesReadBack` | syte/caddy_routes.py:155-198 | reading routes from the text gives every proxy with its host |
| `CaddyReading.ParseHostBlocks` | syte/caddy_monitor.py:36-57 | the scan returns the addresses of the unindented headers, in order |
| `CaddyLineFacts.LineHeader` | syte/caddy_monitor.py:46-56 | a line is taken for a site header exactly when it is an unindented block head, and its address is the one written |
| `CaddyLineFacts.LineDepth` | syte/caddy_routes.py:27-302 | what each kind of line does to the brace depth |
| `CaddyLineFacts.DigitsReadBack` | syte/caddy_routes.py:161-161 | a port is written so that it can be read back |
| `CaddyLineFacts.DigitsAre` | syte/caddy_routes.py:161-161 | it is written in decimal, from the highest digit, without a leading zero |
| `CaddyRoutes.CollectProjectRoutes` | syte/caddy_routes.py:66-83 | the collecting loop splits production and preview routes in project order |
| `CaddyRoutes.CollectCustomTlsRoutes` | syte/caddy_routes.py:86-100 | the collecting loop for custom domains |
| `CaddyRoutes.RoutesByZone` | syte/caddy_routes.py:115-119 | each zone's entry is the list of its routes, in order |
| `CaddyRoutes.RenderWildcardZone` | syte/caddy_routes.py:261-283 | the loop writes the lines that the theorems are about |
| `CaddyRoutes.RenderApexHosts` | syte/caddy_routes.py:286-302 | the loop writes the lines that the theorems are about |
| `CaddyRoutes.RenderIsolatedPreviews` | syte/caddy_routes.py:247-258 | the loop writes the lines that the theorems are about |
| `CaddyRoutes.RenderAllServiceRoutes` | syte/caddy_routes.py:305-346 | all branches together write the lines that FileReadsBack and NoRouteLost are about |
| `Domains.NormalizeIsBare` | syte/domain_utils.py:18-24 | a normal form is lower case, has no slash, colon or final dot, and has only characters of the lower-cased text |
| `Domains.NormalizeIdempotentIff` | syte/domain_utils.py:18-24 | normalising twice is normalising once exactly when the first result has no white space around it |
| `Domains.NoSpaceIsTrimmed` | syte/domain_utils.py:18-24 | domains without white space always meet that condition |
| `Domains.SafeIsHostnameIff` | syte/domain_utils.py:27-34 | a normalised name that passes the check is itself a host name exactly when it has no white space around it |
| `Domains.HostnameIsFixed` | syte/domain_utils.py:18-24 | a host name is its own normal form |
| `Domains.LabelIsPlain` | syte/domain_utils.py:37-42 | no brace and no line break survives in a label, and it is never empty |
| `DomainNames.HostIsFound` | syte/domain_utils.py:18-24 | from a scheme or none, a host name in whatever case, dots, and a path or a port, the normal form is the host name in lower case; only hosts called http and https are not covered |
| `DomainNames.StripFirst` | syte/domain_utils.py:18-24 | white space around the text makes no difference |
| `DomainNames.LowerIs` | syte/domain_utils.py:19-19 | capitals become the letters 32 code points further on, nothing else changes |
| `DomainNames.IsHostnameIff` | syte/domain_utils.py:5-34 | a host name is one letter or digit, or two with at most 251 letters, digits, dots and hyphens between them |
| `DomainNames.LabelCharsAre` | syte/domain_utils.py:37-42 | in a label line ends become spaces and braces become parentheses |
| `DomainNames.FitLabelIsFixed` | syte/domain_utils.py:37-42 | a label that is fit already stays; every label has at most 120 characters |
| `SlidingWindow.WindowBound` | syte/rate_limit.py:67-77 | every interval (t-W, t] of a key's whole history holds at most as many admissions as the limit used by the last one in it, with limits mixed freely |
| `SlidingWindow.RetryAfterIsExact` | syte/rate_limit.py:72-75 | with one limit per key, every earlier retry is rejected and a retry at that instant is admitted |
| `SlidingWindow.RetryAfterRightIff` | syte/rate_limit.py:72-75 | with mixed limits the advice is right exactly when fewer than limit admissions are younger than the oldest in the window |
| `SlidingWindow.MixedLimitsBreakRetryAfter` | syte/rate_limit.py:49-55 | a history on which it is not |
| `SlidingWindow.EvictionRemembers` | syte/rate_limit.py:72-74 | popping expired times forgets nothing that can still be asked about, and leaves exactly the naive window |
| `SlidingWindow.DecidesNaively` | syte/rate_limit.py:67-77 | deciding on what is left in the deque is deciding on the whole history, and the deque goes on remembering it |
| `RateLimiters.Decide` | syte/rate_limit.py:69-77 | the eviction loop and the decision for one deque: the verdict on what is left, and the deque afterwards |
| `RateLimiters.CallKeepsAll` | syte/rate_limit.py:71-77 | one call keeps every key's deque remembering its history, and touches no other key |
| `SlidingWindow.CountIsSuffix` | syte/rate_limit.py:71-74 | in a lawful history a window is a suffix |
| `RateLimiters.Limiter.Allow` | syte/rate_limit.py:67-77 | each call decides as the naive specification does, extends only its own key's history, and touches no other |
| `RateLimiters.TokenWindows.Enforce` | syte/auth.py:122-130 | the same for the token window, with the clamped limit |
| `RateLimiters.ClampedLimit` | syte/auth.py:123-123 | the limit is the stored one clamped to 1..1000, and 60 when there is none |
| `WebSocket.DecodeEncode` | syte/cdp_client.py:61-95 | sections 5.2 and 5.3 of RFC 6455: every frame decodes to its opcode and payload, for every length and mask, and the stream is left at the next frame |
| `WebSocket.ReceiveSkipsPings` | syte/cdp_client.py:78-112 | sections 5.5.2 and 5.5.3: on unfragmented frames the pings are skipped, each echoed in order, and the first other frame is returned with the stream right after it |
| `WebSocket.PongWellFormedIff` | syte/cdp_client.py:98-105 | a pong is a whole frame with the ping's payload exactly up to 125 bytes |
| `WebSocket.PongIsUnmaskedIff` | syte/cdp_client.py:98-105 | a pong has no mask: its mask bit is clear exactly below 128 bytes, and up to 125 bytes it is an unmasked frame |
| `WebSocket.LongPingRaises` | syte/cdp_client.py:98-100 | a ping of 256 bytes or more raises ValueError, unanswered, with its frame taken off the stream |
| `WebSocket.BytesRoundTrip` | syte/cdp_client.py:68-73 | big-endian numbers that fit read back |
| `WebSocket.MaskTwice` | syte/cdp_client.py:75-75 | masking twice is the identity |
| `WebSocket.MaskedBits` | syte/cdp_client.py:75-75 | section 5.3 of RFC 6455, bit by bit: each bit of masked byte i is the sum modulo 2 of that bit of byte i and of key byte i % 4 |
| `WebSocket.EncodedIsLaidOut` | syte/cdp_client.py:61-76 | section 5.2: a frame is the first byte, the length with the mask bit in 1, 3 or 9 bytes from the highest, the key, and the bytes masked so |
| `WebSocket.ToBytesDigits` | syte/cdp_client.py:68-73 | numbers are written in base 256 from the highest digit |
| `WebSocket.AnsweredByOpcode` | syte/cdp_client.py:96-112 | a frame with opcode 1 is text, one with opcode 8 ends the connection, any other but a ping is no text |
| `WebSocket.LengthReadBack` | syte/cdp_client.py:66-73 | the length field of every payload reads back |
| `WebSocket.Client.RecvExact` | syte/cdp_client.py:24-31 | however the system splits the bytes: the next n of them, or None with everything consumed |
| `WebSocket.Client.SendText` | syte/cdp_client.py:61-76 | what is sent is one text frame with the given key: the header, the key, and the payload masked bit by bit |
| `WebSocket.Client.RecvFrame` | syte/cdp_client.py:78-95 | one frame is taken off the stream as the decoder does |
| `WebSocket.Client.RecvJson` | syte/cdp_client.py:78-112 | the result, the rest of the stream and what is sent depend on the bytes alone; the recursion on pings ends |
| `WebSocket.Client.HandleFrame` | syte/cdp_client.py:96-112 | opcode 1 is handed over as text, 8 as nothing, a ping is echoed or raises when it is too long, anything else is no text |
| `ContentLength.RoundTrip` | syte/mcp_stdio.py:196-218 | reading the concatenation of any list of written messages gives exactly that list, then the end of input |
| `ContentLength.ReadWritten` | syte/mcp_stdio.py:196-218 | one written message is read back, and what follows is left |
| `ContentLength.WrittenIs` | syte/mcp_stdio.py:196-200 | a message is the header name, a space, the decimal length, an empty line and the payload |
| `ContentLength.ReadTakes` | syte/mcp_stdio.py:212-218 | a length that is not negative takes that many bytes, or all there are; a negative one takes everything |
| `ContentLength.EmptyLinesSkipped` | syte/mcp_stdio.py:203-211 | empty lines before a message are passed over |
| `ContentLength.PlainLineRead` | syte/mcp_stdio.py:203-211 | a line without the header is taken as it is |
| `ContentLength.ReturnsIff` | syte/mcp_stdio.py:212-216 | after a good header the read returns exactly when a line end lies at an even offset behind it |
| `ContentLength.ReadBackIff` | syte/mcp_stdio.py:212-218 | a message with more bytes before its empty line is read back, and what follows is left, exactly when they are of even number with no line end at an even offset |
| `ContentLength.FurtherHeadersIff` | syte/mcp_stdio.py:212-218 | with further header lines, that is exactly when there are none |
| `ContentLength.EvenLineShiftsBody` | syte/mcp_stdio.py:213-217 | one further line of even length: the body starts with the empty line and loses its last two bytes |
| `ContentLength.OddLineSpins` | syte/mcp_stdio.py:213-216 | one further line of odd length, in a message without carriage returns: the read never returns |
| `ContentLength.ContentTypeSpins` | syte/mcp_stdio.py:213-216 | so it is with the usual Content-Type line |
| `ContentLength.DigitsRoundTrip` | syte/mcp_stdio.py:198-198 | decimal digits parse back to the number |
| `ContentLength.ParsePaddedDigits` | syte/mcp_stdio.py:212-212 | with a space before and a line end behind as well |
| `ContentLength.DigitsAre` | syte/mcp_stdio.py:198-198 | the digits are decimal, from the highest, without a leading zero |
| `ContentLength.Channel.WriteMessage` | syte/mcp_stdio.py:196-200 | the two writes put out one framed message |
| `ContentLength.Channel.ReadMessage` | syte/mcp_stdio.py:203-218 | the result and the rest of the input are those of the reading function; it consumes input on every recursion |
| `OutputLimits.ReadBinaryLimited` | syte/output_limits.py:66-89 | whatever the chunking: all of it when it fits, else exactly the first max bytes; truncated exactly when there were more, and the pipe drained |
| `OutputLimits.ReadAsyncLimited` | syte/output_limits.py:92-116 | the same, and nothing from a missing stream |
| `OutputLimits.ReadTextLimited` | syte/output_limits.py:33-63 | every line reaches on_line once and in order; the capture is the whole text when it fits, else exactly its first max bytes and one marker |
| `OutputLimits.ConcatInOrder` | syte/output_limits.py:33-63 | the text is one line after the other |
| `Previews.StatusIsFixedPoint` | syte/preview_manager.py:754-780 | with the same observations a second status call changes nothing |
| `Previews.LaterStatusChangesIff` | syte/preview_manager.py:763-780 | later, with the same processes and ports, it changes something exactly when a waiting start has used up its grace |
| `Previews.RunKeepsAddress` | syte/preview_manager.py:489-838 | over any serial run of ensure, start, stop, status and expire an assigned port never changes, nor a host name whose normal form has no white space around it |
| `Previews.StartKeepsAddress` | syte/preview_manager.py:629-713 | a start keeps such an address, however it ends |
| `Previews.StartKeepsNameIff` | syte/preview_manager.py:633-713 | a preview that is brought up keeps its normalised name exactly when that has no white space around it |
| `Previews.Host.NextPreviewPort` | syte/preview_manager.py:92-103 | the least port of the range that no project has and nothing listens on, or None when there is none |
| `Previews.Host.EnsureAddress` | syte/preview_manager.py:489-503 | assigns only what is missing: the made-up name where there is no preview host name, and the least free port; it raises exactly when a port is missing and none is free, and then nothing has changed |
| `Previews.Host.Stop` | syte/preview_manager.py:506-517 | stops one preview, keeps its address, reloads the proxy when asked |
| `Previews.Host.GetStatus` | syte/preview_manager.py:754-780 | ensures the address of one row and touches no other; a preview that lives, or was not stopped, is running exactly when its port is listening, else starting exactly when it lives or is within its grace, else stopped; pid, start time and time stamp are told as well |
| `Previews.Host.Start` | syte/preview_manager.py:582-716 | changes one entry, from an ensured address; a preview that lives and listens stays, any other is halted and then has the new pid and start time and is running exactly when its port is listening, or is stopped; reports success exactly when a preview is up; reloads the proxy once for a new one |
| `Previews.Host.ExpireOne` | syte/preview_manager.py:813-835 | stops one preview exactly when it is not stopped and was started more than an hour ago, or is dead with a silent port and is no start within its 45 seconds |
| `Previews.Host.ExpireStale` | syte/preview_manager.py:805-838 | a pass stops exactly the over-age or dead-past-grace previews, with one proxy reload if any and none otherwise |
| `Previews.ExpiredIff` | syte/preview_manager.py:792-835 | what expires is told by the row, the processes and the ports alone |
| `Previews.PreviewHostnameIff` | syte/preview_domains.py:28-30 | a preview host name begins with "preview" and has a dot |
| `Ports.RunOfUsedPorts` | syte/deployment.py:47-52 | pigeonhole: a run of used ports from 3000 is no longer than the number of projects |
| `Ports.NextPort` | syte/deployment.py:47-52 | the loop ends with the least free port from 3000, at most 3000 plus the number of projects |
| `Ports.ProjectTable.Create` | syte/deployment.py:256-288 | over any serial run of creates and removes all ports are distinct and below 3000 plus the peak |
| `Ports.ProjectTable.Remove` | syte/database.py:561-565 | removing a project keeps that |
| `Ports.ProjectTable.NoPreviewPort` | syte/preview_manager.py:32-33 | with at most 1000 projects ever live at once no service port is a preview port |
| `NextLayout.FixIsIdempotent` | syte/nextjs_layout.py:83-135 | a second run returns no actions and changes nothing |
| `NextLayout.RaisedStaysRaised` | syte/nextjs_layout.py:83-135 | a repair that raised raises again, and leaves the tree as it is |
| `NextLayout.FixIsLossless` | syte/nextjs_layout.py:83-135 | nothing is overwritten or dropped, even by a repair that raises halfway: an entry stays, or moves into an app directory where its name was free |
| `NextLayout.FixedIsAccepted` | syte/nextjs_layout.py:83-146 | with an App Router file at the root or in src, or a components directory, the result is accepted |
| `NextRouter.AcceptedIff` | syte/nextjs_layout.py:83-146 | a repaired project is accepted exactly when it had a router, or an App Router file at the root or in src, or a directory called globals.css there with a page in it that can be moved, or components |
| `NextRouter.RoutedIsLeftAlone` | syte/nextjs_layout.py:83-90 | a project that is not Next.js, or has a router, is left alone |
| `NextRouter.RouterIff` | syte/nextjs_layout.py:45-64 | a router is one of app, pages, src/app and src/pages with a router file, or a page or script at whatever depth |
| `NextRouter.ScriptIff` | syte/nextjs_layout.py:55-55 | the glob for scripts finds exactly the entries with such a name at some path |
| `NextRouter.PageIff` | syte/nextjs_layout.py:56-56 | so does the glob for pages |
| `NextRouter.PromotedRouterIff` | syte/nextjs_layout.py:93-119 | a stage leaves a router exactly when there was one, or there is something to move that becomes one |
| `NextRouter.PromotionIsReported` | syte/nextjs_layout.py:93-119 | a stage reports exactly the App Router files and style sheets that were here and free there |
| `NextRouter.ScaffoldMakes` | syte/nextjs_layout.py:124-133 | scaffolding adds the layout and the page that are missing, reports them, and changes nothing else |
| `NextLayout.RaisesOnlyIfBlocked` | syte/nextjs_layout.py:96-127 | it raises only when a file is called app |
| `NextLayout.UnroutedIsSettled` | syte/nextjs_layout.py:105-135 | without a router afterwards nothing is left to move and there are no components |
| `NextLayout.MoveAllMoves` | syte/nextjs_layout.py:98-103 | the move loop moves exactly the names that are here and free there |
| `NextLayout.PackageJsonStays` | syte/nextjs_layout.py:33-42 | package.json stays, so a second run takes the project for what it was |
| `NextLayout.Repository.PromoteRoot` | syte/nextjs_layout.py:93-103 | the root stage in place is the stage of the specification, or leaves the tree alone when mkdir raises |
| `ZipIntake.SafePartsStayInside` | syte/project_intake.py:59-66 | no component of an accepted member path leads upwards or nowhere |
| `ArchivePaths.SafeNameIff` | syte/project_intake.py:59-66 | a name joined from any components is accepted exactly when it is neither empty nor absolute, no component is "..", and there is no backslash and no NUL |
| `ArchivePaths.PlainPathIsSpelled` | syte/project_intake.py:59-66 | every path of plain components is read from the name that spells it |
| `ArchivePaths.ProperInOrder` | syte/project_intake.py:63-64 | empty components and single dots add nothing to a path, every other adds itself, in order |
| `ArchivePaths.SplitJoined` | syte/project_intake.py:63-63 | taking a joined name apart gives its components |
| `ArchivePaths.JoinSplit` | syte/project_intake.py:63-63 | every name is joined from components without slashes |
| `ZipIntake.TargetIsBelowStaging` | syte/project_intake.py:125-132 | what an accepted member resolves to from staging, with ".." going up, lies below staging, so the check of the resolved path never fails |
| `ZipIntake.ArchiveRootPrefix` | syte/project_intake.py:69-87 | the common root exactly when all files lie below one, "" when there is none, and it raises exactly when a file path is unsafe |
| `ZipIntake.StrippingIsInjective` | syte/project_intake.py:125-129 | dropping the common root keeps file paths non-empty, and different ones different |
| `ZipIntake.TreeHasTheFiles` | syte/project_intake.py:119-141 | the extracted tree has exactly the files of the archive: the last member's content at every path, and nothing else |
| `ZipIntake.ExpandsIff` | syte/project_intake.py:117-141 | in whatever order they come, the members can be expanded exactly when each has a safe name, is no symbolic link and can be read, and no two want a file and a directory at one path |
| `ZipIntake.TreeHasWhatIsAskedFor` | syte/project_intake.py:117-141 | the extracted tree has exactly the files and the directories that some member asks for |
| `ZipIntake.TargetIs` | syte/project_intake.py:125-128 | a member goes to its path behind the common root, unless that is empty or in __MACOSX |
| `ZipIntake.CountIsPositiveIff` | syte/project_intake.py:139-144 | something is counted exactly when some file is written |
| `FileTree.WriteAtWrites` | syte/project_intake.py:136-138 | writing a member sets that file and changes no other |
| `FileTree.MakePathKeepsFiles` | syte/project_intake.py:133-136 | making directories changes no file |
| `FileTree.MakePathIff` | syte/project_intake.py:133-136 | making directories fails exactly when a file is in the way |
| `FileTree.WriteAtIff` | syte/project_intake.py:136-138 | writing a file fails exactly when a file is in the way or a directory has that path |
| `FileTree.MakePathDirs` | syte/project_intake.py:133-136 | making directories makes those of the path, and no others |
| `FileTree.WriteAtDirs` | syte/project_intake.py:136-138 | writing a file makes the directories above it, and no others |
| `ZipIntake.CountIsOutsideIff` | syte/project_intake.py:125-128 | the returned count is the number of file members outside __MACOSX exactly when the dropped root was not __MACOSX and no file has it just below |
| `ZipIntake.BytesAreOutsideIff` | syte/project_intake.py:125-141 | the returned byte sum is that of the file members outside __MACOSX exactly when no root was dropped, or the files that are counted differently are all empty |
| `ZipIntake.PrefixIsUnique` | syte/project_intake.py:69-87 | an archive has one prefix, so its outcome is determined |
| `ZipIntake.Workspace.Expand` | syte/project_intake.py:117-141 | the member loop builds exactly the specified tree and counts, or fails exactly when some member is refused |
| `ZipIntake.Workspace.ExtractZip` | syte/project_intake.py:90-154 | an archive is imported exactly when it is present, within the limits on bytes, members and expanded bytes, and can be expanded into some file; one with a symbolic link is rejected; a rejected archive leaves the app tree unchanged, and an imported one replaces it by the extracted tree with its counts; nothing is left in staging |

## Left out

- Real Docker, git, systemd, Caddy, sockets, HTTP and Chromium: their answers are parameters, or steps of the environment.
- SQLite, JSON and UTF-8: rows are values, writes succeed and are atomic, messages and payloads are bytes.
- The branches inside the deploy job (syte/deployment.py:136-234): the job may write any status at any time while it holds the lock. A write in flight when a cancellation arrives is taken to land before the request.
- Work that was handed to a thread and goes on after its task was cancelled, although the lock is released.
- Failing database writes in `_run_recorded_deploy`: exceptions come from the job and from notifications only.
- Cancellation of the callers of `issue_deploy`, and the first-in-first-out order of lock waiters, which a free choice covers.
- DeployHost.Host: covers the synchronous stretches of callers and tasks and the arrival of cancellations; writes and exceptions inside the job are steps of the transition system only.
- Port and preview operations that run concurrently: the locks there are released before the port is stored.
- The choice of limit and key from a request path, and the `Retry-After` header, which rounds down.
- The regular expression engine: patterns are token lists, matched by greedy backtracking. Letter case is compared over ASCII.
- RedirectEngine.Simulate: URL splitting and query parsing are functions that it is given, and the merged query is a list of parameters that is not written back into the URL.
- RedirectSubstitution.AnySubstitutionRightIff: a parameter that is itself called `wildcard` is outside `GroupName`; the code substitutes it for every star instead of its mark.
- The status code, environments and description of a redirect rule: stored but without influence on the winner. A status code that is no number is kept, since it ends an import.
- Editing a redirect, search and filters of a listing.
- DomainNames.HostIsFound: says nothing of hosts that are themselves called http or https, which can be read as a scheme.
- Domains.NormalizeIsBare: lower case is taken over ASCII letters; other characters stay.
- Uniqueness of Caddy matcher names, which the code does not promise.
- The GUI block and the global options of the Caddyfile, which another module writes.
- CaddyFile.FileReadsBack: assumes that normal forms of stored domains have no white space around them, which text stored without white space always meets, and a policy and origin without braces and line breaks.
- CaddyFile.NoRouteLost: assumes the same.
- WebSocket.Client.RecvJson: socket timeouts are left out; a stream that ends stands for every way in which no more bytes come.
- WebSocket fragmentation, the opening handshake and bytes left over from it, and Python's recursion limit on long runs of pings.
- ContentLength: underscores and non-ASCII digits, which `int` would accept in a length that the writer never produces.
- OutputLimits.ReadTextLimited: works on encoded lines; the final strip and the replacement of a character cut in half are left out.
- The command detection of previews, and preview pages and logs.
- Previews.RunKeepsAddress: says nothing of host names whose normal form has white space around it, which a start changes (`StartKeepsNameIff`).
- NextLayout.Repository: only the root stage is in place; the stages for src and for components are on values.
- The texts of the generated layout and page, the other repairs of syte/nextjs_layout.py, and the environment scan of syte/project_intake.py.
- ZipIntake: file modes and times, and members whose stored size is wrong.
- Modules that are not part of this model: workspace, release_operations, platform.store, ssl_status, ai.
