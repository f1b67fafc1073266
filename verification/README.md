# Verified models of theyos tooling

This project models the parts of the theyos repository whose correctness is an argument about whole
runs, about all inputs of a parser, or about every choice an external tool may make, and proves what
they promise. The remote systems are states that answer requests; what they answer, and when they
fail, is arbitrary unless a lemma says otherwise.

- **Pull request body update** (`PullRequestBody`). The update reads a snapshot, sends a PATCH and
  reads back; a 503 leaves open whether the PATCH was applied. The conversation with an arbitrary
  server is a trace, `ExecutePrBodyUpdate` produces only legal traces, and the theorems are about all
  legal traces: first for any server with any foreign writer, then for a server nobody else writes.
- **Governed release** (`ReleaseModel`, `ReleaseRuns`, `ReleaseCommand`, `ReleasePipeline`). Five
  operations (tag object, tag ref, draft, upload, publish) on a remote store. `ReleaseCommand` is one
  invocation with failing requests, drifting common state and mutations that are reported as done and
  do something else; `ReleaseRuns` is about all sequences of invocations; `ReleasePipeline` is one
  whole release by six invocations.
- **`git cat-file --batch`** (`CatFileBatch`). The length-prefixed reader and the worktree check on it.
- **Chronic reds** (`CheckRuns`, `ChronicReds`, `IssueTracker`, `IssueFetch`, `ChronicRedGate`). Newest
  observations, classification, the issue store under any sequence of rounds, each possibly cut short,
  and what the limit of the issue listing does to them.
- **Rust literals** (`StringLiteral`). The printer of the build script against the lexical rules of the
  Rust Reference, sections "Tokens" and "Input format".
- **Branch hygiene** (`UnifiedDiff`, `EditScripts`, `ManifestRoots`, `BranchHygiene`). The diff reader,
  the count of reverted lines for any edit scripts git may choose, and component lookup.
- **DER signatures** (`DerSignature`), **path globs** (`PathGlob`), **workflow scan and wiring gate**
  (`WorkflowText`, `WorkflowParser`, `WorkflowLayout`, `WorkflowRefusals`, `WorkflowYaml`, `WiringGate`,
  `WiringLayout`, `WiringText`), **Mach-O UUIDs** (`MachO`) and **backup retention** (`BackupLog`,
  `BackupManager`).

`Basics` and `Order` hold what several modules share: optional values, stripping, object ids, decimals,
the string order and sorting.

## Where the code does less than it says

Each of these is modelled as the code is, with an input that shows the difference and the exact
condition under which the promise holds.

- A publish invocation does not look at the draft's prerelease flag before it publishes, but its
  readback refuses a prerelease. Every publishable draft stays publishable with the flag set
  (`PrereleaseDraftPassesGuard`), and is then published and reported as blocked
  (`PublishedButBlocked`). On a quiet server an allowed invocation mutates, and it returns 0 exactly
  when it does not publish a prerelease (`Promise`, the contract of `ExecuteGovernedRelease`). Drafts
  that governed invocations create are never prereleases (`GovernedDraftsAreNoPrereleases`).
- The emitted literal gives the string back exactly when the string has no CR or is printed escaped
  (`EmitReadsBackIff`); CR LF silently becomes LF (`CrLfBecomesLf`).
- The docstring of the reverted-line count says that a deliberately removed line is never counted. It
  is, when main moved that line (`DeliberateRemovalIsCounted`). A line main did not gain is counted
  exactly when the first script moves it and the second adds it (`UngainedLineCountedIff`); the total
  is exact exactly when each line is counted exactly (`CountIsExactIff`).
- The DER converter is documented as accepting canonical signatures. It also accepts negative and
  padded integers (`NonCanonicalIsAccepted`); re-encoding gives the input back exactly for canonical
  ones (`ReencodesIffCanonical`).
- A directory followed by `/*` covers the same paths as the directory followed by `/**`
  (`DirectoryStarIff`, `StarCrossesSegments`).
- A backup may return the path of a file that its own prune has just deleted, for example the second of
  two backups that start at the same time with a retention count of 1 (`SecondBackupPrunesItself`). The
  row is kept under every tie-break exactly when fewer than `retain_count` other completed rows are not
  older (`AlwaysKeptIff`, `WorstPrune`).
- The workflow scanner means to refuse what it cannot interpret, but it passes over some YAML in silence.
  A step under a quoted `if` still counts as load-bearing (`QuotedIfIsMissed`): what it takes for an
  unconditional step is one exactly when no disqualifying key is quoted (`UnconditionalIff`). Top-level
  defaults written on one line go unseen (`FlowDefaultsAreMissed`): the scanner sees them exactly when
  the key stands bare with the rest nested under it (`DefaultsSeenIff`).
- The batch reader accepts sizes that git never prints, such as `+1` (`SignedSizeIsAccepted`); an
  accepted stream is git's own print exactly when its sizes are canonical decimals
  (`PrintedIffCanonical`).
- Reading check runs fails on exactly 2000 runs although 20 pages of 100 hold them
  (`TwoThousandRunsAreRefused`); it succeeds exactly when all rows are valid and fewer than that
  (`FetchCheckObservations`).
- Issues are deduplicated only as far as the listing goes. A full round leaves an orphan with a second
  open issue exactly when at least 100 open issues are newer than the one it had (`SecondIssueIff`),
  for example with 101 open issues for 101 contexts (`HundredAndOneIssues`). For the same reason the
  issue of a green check stays open exactly when 100 newer ones hide it (`FullRoundClosesGreen`).

## Model

| member | source | states |
|---|---|---|
| PullRequestBody.Client.ReadPrBodySnapshot | scripts/safe_external_write.py:743-763 | the reads are the protocol's reads from the caller's phase, at most three, and each is the server's reply to its request |
| PullRequestBody.ValidateIff | scripts/safe_external_write.py:694-728 | a response is read as the pull request of a number exactly when it is that pull request's own document, with an allowed state and full object ids |
| PullRequestBody.BodyEditIff | scripts/safe_external_write.py:766-779 | the commands that are executed are exactly the edits of a pull request with a positive number |
| PullRequestBody.Client.ExecutePrBodyUpdate | scripts/safe_external_write.py:766-844 | for any server: the recorded conversation is the server's replies in order, it is legal, it ends in a final phase, and that phase is the reported outcome; a command of another shape makes no request |
| PullRequestBody.RunIsBounded | scripts/safe_external_write.py:743-844 | every legal conversation has at most 3 PATCHes and 12 GETs |
| PullRequestBody.SuccessIsConfirmed | scripts/safe_external_write.py:766-844 | on the documents: success only if the read after the last PATCH was answered with the document first read, with the payload for its body; that PATCH was answered with the same document or with 503; every PATCH carried the payload; the reported attempts are the PATCHes made |
| PullRequestBody.RepeatIsReconciled | scripts/safe_external_write.py:766-844 | a repeated PATCH follows a 503 and a read that was answered with exactly the document first read, so a third state is never overwritten |
| PullRequestBody.BodyIsOneOfTwo | scripts/safe_external_write.py:766-844 | on a server nobody else writes, the body is at every moment the original or the payload, on the same object |
| PullRequestBody.HonestOutcome | scripts/safe_external_write.py:766-844 | on such a server, success if and only if the last exchange is an answered read and the remote holds the payload; a refusal has one of three causes |
| PullRequestBody.FewFaultsSucceed | scripts/safe_external_write.py:743-844 | with at most two 503 PATCH replies and never three 503 reads in a row, every run succeeds and changes only the body |
| ReleaseModel.ListingIsExact | scripts/safe_external_write.py:1454-1477 | an asset listing that exists has distinct names and exactly one entry per asset with its size and digest |
| ReleaseModel.ListingExists | scripts/safe_external_write.py:1454-1477 | listable assets with distinct names always have a listing |
| ReleaseModel.AcceptableIff | scripts/safe_external_write.py:2458-2466 | a manifest line is acceptable exactly when it names one of the two assets, with a positive size and 64 lower-case hex digits |
| ReleaseModel.WellFormedIff | scripts/safe_external_write.py:2253-2268 | an invocation is well formed exactly when the ref is `refs/tags/mac-v` with the version and all object ids are full |
| ReleaseModel.GuardMeans | scripts/safe_external_write.py:2270-2490 | what holds before any mutation: for the tag, the fixed message and no ref or release under the tag; for the draft, the bound tag, a title, a body and no release; for uploads and the publication, no input, the bound tag and a draft under it |
| ReleaseModel.ManifestIsExact | scripts/safe_external_write.py:2458-2466 | a manifest that has a map consists of acceptable lines with distinct names, each mapped to itself, and the map has no other entry |
| ReleaseModel.ManifestExists | scripts/safe_external_write.py:2458-2466 | acceptable lines with distinct names always have a map |
| ReleaseModel.SameMapCarries | scripts/safe_external_write.py:2458-2468 | assets whose listing equals the map are exactly the lines of the manifest |
| ReleaseCommand.ListAssets | scripts/safe_external_write.py:1454-1477 | the loop computes that listing, or gives up at the first asset that has none |
| ReleaseCommand.ReadManifest | scripts/safe_external_write.py:2458-2466 | the loop computes the manifest's map, or refuses a repeated or malformed line |
| ReleaseCommand.CommonMeans | scripts/safe_external_write.py:1256-1356 | a common check passes exactly when its six reads are answered and show, one after the other: main at the expected commit, the target commit, the target merged into main, its version files at the version, its contract intact, and no branch named like the tag |
| ReleaseCommand.Server.AssertCommon | scripts/safe_external_write.py:1256-1356 | passes exactly when every read of the common state is answered as expected |
| ReleaseCommand.Server.AssertReleaseAbsent | scripts/safe_external_write.py:1359-1367 | passes only if no release has the tag; fails only if one has or a request failed |
| ReleaseCommand.Server.AssertTagAbsent | scripts/safe_external_write.py:1370-1375 | the same for the tag ref and the release |
| ReleaseCommand.Server.ReadTag | scripts/safe_external_write.py:1378-1410 | passes only if the ref names the annotated tag with the fixed message on the target commit |
| ReleaseCommand.Server.ReadRelease | scripts/safe_external_write.py:1413-1431 | passes only if the release has that id and tag and the tag is bound |
| ReleaseCommand.Server.CreateTagObject | scripts/safe_external_write.py:2270-2308 | the contract of one invocation (see `ExecuteGovernedRelease`), for the tag object, including that it mutates when everything holds and checks the common state again behind the mutation |
| ReleaseCommand.Server.CreateTagRef | scripts/safe_external_write.py:2313-2347 | the contract of one invocation (see `ExecuteGovernedRelease`), for the tag ref, including that it mutates when everything holds and checks the common state again behind the mutation |
| ReleaseCommand.Server.CreateDraft | scripts/safe_external_write.py:2352-2397 | the contract of one invocation (see `ExecuteGovernedRelease`), for the draft, including that it mutates when everything holds and checks the common state again behind the mutation |
| ReleaseCommand.Server.UploadAsset | scripts/safe_external_write.py:2404-2456 | the contract of one invocation (see `ExecuteGovernedRelease`), for an asset: a receipt means that the asset with the reported id is fully uploaded with the name, size and digest asked for, and that the listing is the one before with it added |
| ReleaseCommand.Server.PublishRelease | scripts/safe_external_write.py:2458-2490 | the contract of one invocation (see `ExecuteGovernedRelease`), for the publication, including that it mutates when everything holds and checks the common state again behind the mutation |
| ReleaseCommand.Server.ExecuteGovernedRelease | scripts/safe_external_write.py:2253-2492 | at most one mutation, only after all preconditions held; exit 0 means, even on a server that reports success and does anything else, that what was asked for is in the store as it was asked for and that a whole common check passed after the mutation and within the invocation; on a server that does what it reports, exit 0 means the full effect; without failure or drift, an allowed invocation does mutate, takes full effect, and returns 0 exactly unless it publishes a prerelease |
| ReleaseCommand.UploadIsListed | scripts/safe_external_write.py:2404-2456 | an upload taken in full passes its readback: the old assets unchanged plus the new one, and that is what its receipt stands for |
| ReleaseRuns.PublishSeals | scripts/safe_external_write.py:2458-2490 | a publication leaves the release with exactly the two governed assets of the manifest and its tag bound |
| ReleaseRuns.SealSurvivesStep | scripts/safe_external_write.py:2253-2492 | no invocation whatsoever changes a published release, its assets, its tag ref or its tag object |
| ReleaseRuns.PublishedStaysPublished | scripts/safe_external_write.py:2253-2492 | over any run, what was published stays as it was published |
| ReleaseRuns.OnlyPublishPublishes | scripts/safe_external_write.py:2253-2492 | only a publish invocation of that release publishes it |
| ReleaseRuns.PublishedWasGoverned | scripts/safe_external_write.py:2253-2492 | from a store with drafts only, every published release of every run was published by one invocation of the run, and its assets are exactly the two governed lines of that invocation's manifest, on its tag |
| ReleaseRuns.AssetsWereSent | scripts/safe_external_write.py:2404-2456 | over any run from an empty store, every uploaded asset has the name, the size and the SHA-256 of a file that one upload of the run sent |
| ReleaseRuns.PublishedBytesWereSent | scripts/safe_external_write.py:2404-2490 | so every line of a published manifest gives the size and the SHA-256 of bytes that were sent |
| ReleaseRuns.RunMakesWell | scripts/safe_external_write.py:2270-2397 | over any run, every release has a name and a body, and its tag is an annotated one on a commit, with the version's fixed message |
| ReleaseRuns.RunKeepsReleasesApart | scripts/safe_external_write.py:1359-1375 | over any run, at most one release per tag and no prerelease |
| ReleaseRuns.GovernedDraftsAreNoPrereleases | scripts/safe_external_write.py:2352-2397 | in such runs no publish meets a prerelease draft |
| ReleaseRuns.TagStage | scripts/safe_external_write.py:2270-2347 | from a store without the tag, the tag object and then the tag ref are allowed, and leave the tag bound and without a release |
| ReleaseRuns.DraftStage | scripts/safe_external_write.py:2352-2397 | on a bound tag without a release the draft is allowed, and is then open, empty and no prerelease |
| ReleaseRuns.UploadStage | scripts/safe_external_write.py:2404-2456 | on an open draft an acceptable, matching, unlisted asset is allowed, and is then listed with the others |
| ReleaseRuns.PublishStage | scripts/safe_external_write.py:2458-2490 | an open draft that lists both governed assets can be published with that manifest, and is then sealed |
| ReleasePipeline.Release | scripts/safe_external_write.py:2253-2492 | six calls of the command on a quiet server without the tag, each using the ids on the receipts before it, all return a receipt, make six mutations and leave the release sealed |
| ReleasePipeline.Invoke | scripts/safe_external_write.py:2253-2492 | an allowed invocation on a quiet server mutates once, is confirmed, and leaves the server quiet |
| ReleaseRuns.PrereleaseDraftPassesGuard | scripts/safe_external_write.py:2458-2490 | every publishable draft is still publishable with the prerelease flag set, which the readback then refuses |
| ReleasePipeline.PublishedButBlocked | scripts/safe_external_write.py:2458-2490 | an allowed publication of a prerelease draft, with nothing failing, publishes it and reports that it was blocked |
| CatFileBatch.BlobBytes | scripts/safe_external_write.py:2762-2802 | one request for the distinct ids in ascending order, and the map of their blobs exactly when the whole stream parses |
| CatFileBatch.RecordReadsBack | scripts/safe_external_write.py:2762-2802 | a printed record is read back whatever bytes its blob holds and whatever follows |
| CatFileBatch.AcceptedIsBatch | scripts/safe_external_write.py:2762-2802 | every accepted stream is one header, blob and newline per requested id, in order, and nothing else |
| CatFileBatch.PrintReadsBack | scripts/safe_external_write.py:2762-2802 | reading what git prints gives the blobs back |
| CatFileBatch.PrintedIffCanonical | scripts/safe_external_write.py:2762-2802 | an accepted stream is git's print exactly when every size is canonical decimal |
| CatFileBatch.SignedSizeIsAccepted | scripts/safe_external_write.py:2762-2802 | for every id, a stream with the size `+1` is accepted |
| CatFileBatch.BlobsAreObjects | scripts/safe_external_write.py:2762-2802 | for every id asked for, the blob read is the object's content |
| CatFileBatch.EntryMapIs | scripts/safe_external_write.py:2704-2760 | for distinct paths each entry is under its path with its mode and id, and nothing else is in the map |
| CatFileBatch.PyIntIff | scripts/safe_external_write.py:2762-2802 | a size is read as a number exactly when it is ASCII and, between spaces, an optional sign and digits with single underscores between them |
| CatFileBatch.WorktreeClean | scripts/safe_external_write.py:2860-2879 | clean exactly when head and index agree, nothing is untracked and every entry is in the worktree with its mode and content; errors only from an unreadable stream or an unsafe path |
| CheckRuns.KeptIsNewest | scripts/check-chronic-reds.py:319-364 | what is kept for a name is its run with the greatest id |
| CheckRuns.OrderDoesNotMatter | scripts/check-chronic-reds.py:319-364 | with distinct ids, rows in any order give the same observations |
| CheckRuns.FetchCheckObservations | scripts/check-chronic-reds.py:312-364 | succeeds exactly when all rows are valid and there are fewer than 2000, and then holds the newest observation of each name over all pages |
| CheckRuns.ValidRows | scripts/check-chronic-reds.py:319-355 | which rows can be read, by the forms a row can have: names and status are non-empty, and a completed run has a conclusion |
| CheckRuns.TwoThousandRunsAreRefused | scripts/check-chronic-reds.py:360-363 | 2000 valid runs with distinct ids fill the 20 pages exactly and cannot be read |
| ChronicReds.DeclaredForIsMostSpecific | scripts/check-chronic-reds.py:165-174 | the declaration found covers the context and no covering one is longer; none is found only if none covers it |
| ChronicReds.FindDeclared | scripts/check-chronic-reds.py:165-174 | the loop computes that declaration |
| ChronicReds.StandingIff | scripts/check-chronic-reds.py:165-208 | a failing check is an orphan exactly when no declaration covers it, declared exactly when the most specific one has not expired, and expired exactly when that one has |
| ChronicReds.NewestDecides | scripts/check-chronic-reds.py:177-187 | a check fails, or is green, exactly when its run with the greatest id is completed with that conclusion |
| ChronicReds.Classify | scripts/check-chronic-reds.py:177-240 | the failing checks are split, in ascending order, into those no declaration covers, those whose most specific declaration is in force and those whose most specific one has expired, with its expiry; the actions are the pages of the orphans and then the closes of the green issues |
| ChronicReds.PagesMean | scripts/check-chronic-reds.py:217-228 | every paging action is the one its own orphan context calls for, to the owner on duty and with the deadline one SLA away |
| ChronicReds.PagesCover | scripts/check-chronic-reds.py:217-228 | every orphan that calls for a page gets it |
| ChronicReds.ClosesMean | scripts/check-chronic-reds.py:230-240 | every close is of a listed issue whose check is completed and successful |
| ChronicReds.ClosesCover | scripts/check-chronic-reds.py:230-240 | every listed issue of a green check gets its close |
| IssueTracker.TitleNamesContext | scripts/check-chronic-reds.py:367-370 | a title names a context exactly when it is that context's title |
| IssueTracker.ReadLatestPing | scripts/check-chronic-reds.py:413-442 | the latest re-ping over all pages of comments |
| IssueTracker.LatestPingIsLatest | scripts/check-chronic-reds.py:413-442 | that re-ping exists and no other is later |
| IssueTracker.PlanIsIndependent | scripts/check-chronic-reds.py:210-240 | no two actions of a plan concern the same issue, nor does a plan page and close the same context |
| IssueTracker.PlanStaysFit | scripts/check-chronic-reds.py:445-490 | every action is still in order when its turn comes, after any executed prefix |
| IssueTracker.RunsKeep | scripts/check-chronic-reds.py:210-240 | over any sequence of rounds, each cut anywhere: one open issue per context at most, and pages of an issue at least one SLA apart |
| IssueTracker.FullRoundPagesOrphans | scripts/check-chronic-reds.py:217-228 | after a full round every orphan has an open issue paged less than one SLA before the round |
| IssueTracker.ClosedMeansGreen | scripts/check-chronic-reds.py:230-240 | a round closes an issue only if its check was observed green |
| IssueTracker.ClosedMeansNewestSucceeded | scripts/check-chronic-reds.py:319-364 | end to end: an issue is closed only if the run of its check with the greatest id among the rows read is a completed success |
| IssueTracker.PagedMeansNewestFailed | scripts/check-chronic-reds.py:210-228 | end to end: a check that pages somebody is covered by no declaration, and the run of it with the greatest id among the rows read is a completed failure |
| IssueFetch.SecondIssueIff | scripts/check-chronic-reds.py:217-222 | after a full round an orphan that had one open issue has a second one if and only if at least 100 open issues are newer than the first |
| IssueFetch.HundredAndOneIssues | scripts/check-chronic-reds.py:376-382 | with 101 open issues for the contexts `x`, `xx` and so on, a full round that finds the oldest context orphaned leaves two open issues for it |
| IssueFetch.FullRoundClosesGreen | scripts/check-chronic-reds.py:230-240 | after a full round the open issues of a green check are exactly those that were open before and hidden by at least 100 newer ones |
| ChronicRedGate.Gate.FetchOrphanIssues | scripts/check-chronic-reds.py:373-410 | the list holds exactly the open issues of the gate with fewer than 100 newer open ones, as they are; so all of them when at most 100 are open |
| ChronicRedGate.Gate.Execute | scripts/check-chronic-reds.py:445-490 | a prefix of the actions is applied, all of them exactly when every write goes through; it stops at the first action before which the tip moved or whose request failed, and writes nothing after that |
| ChronicRedGate.Gate.Run | scripts/check-chronic-reds.py:498-544 | the tracker ends up as after a round on that listing, legal when nothing was hidden; the run is stopped exactly when it has a plan and the tip moved or a write failed, writes nothing when the tip had moved before and nothing after the failing action, and otherwise executes the whole plan and passes exactly when every failing check is covered by a declaration in force |
| StringLiteral.CountMaxConsecutiveQuoteHashes | admin/rust/core-rs/build.rs:163-180 | the longest run of hashes behind a quote, attained and never exceeded |
| StringLiteral.RawLiteralIff | admin/rust/core-rs/build.rs:202-220 | a raw literal is read back exactly when it has more hashes than any run behind a quote and the string has no CR |
| StringLiteral.ChainIsOnePass | admin/rust/core-rs/build.rs:157-191 | the chained replacements equal escaping in one pass |
| StringLiteral.EmitReadsBack | admin/rust/core-rs/build.rs:202-220 | every string without CR is read back from its literal, in all branches, whatever follows |
| StringLiteral.EmitReadsBackIff | admin/rust/core-rs/build.rs:202-220 | the compiler gives the string back exactly when it has no CR or is printed escaped |
| StringLiteral.CrLfBecomesLf | admin/rust/core-rs/build.rs:202-220 | CR LF comes back as LF |
| StringLiteral.EmitUsesFewestHashes | admin/rust/core-rs/build.rs:163-220 | no smaller number of hashes would have done |
| StringLiteral.EscapeStrReadsBackIff | admin/rust/core-rs/build.rs:157-159 | the short escaping is read back exactly when there is no CR |
| EditScripts.AddedIsGainedPlusMoved | scripts/check-branch-hygiene.py:12-40 | the lines any script adds are the gained lines plus the moved ones |
| EditScripts.NothingMissingIsOverlooked | scripts/check-branch-hygiene.py:215-251 | for any scripts, the count is at least the lines main gained and the branch lacks |
| EditScripts.CountIsExactIff | scripts/check-branch-hygiene.py:215-251 | it is exact if and only if each line is counted exactly, which holds when no line is moved |
| EditScripts.UngainedLineCountedIff | scripts/check-branch-hygiene.py:12-40 | a line main did not gain is counted exactly when the first script moves it and the second adds it |
| EditScripts.DeliberateRemovalIsCounted | scripts/check-branch-hygiene.py:12-40 | a line main moved and the branch deleted is counted |
| UnifiedDiff.AddedLinesByPath | scripts/check-branch-hygiene.py:188-212 | the loop over chunks and lines computes the scan |
| UnifiedDiff.StepBody | scripts/check-branch-hygiene.py:188-212 | inside a hunk every added line counts whatever its text, and no other line does anything |
| UnifiedDiff.ChunksDoNotMatter | scripts/check-branch-hygiene.py:188-212 | for any division into chunks the result is that of the sections one after the other |
| UnifiedDiff.AddedLinesRecovered | scripts/check-branch-hygiene.py:188-212 | for distinct paths, each path gets exactly the multiset of its added lines |
| UnifiedDiff.NoOtherEntries | scripts/check-branch-hygiene.py:188-212 | no entry for a path that is not in the diff |
| ManifestRoots.FindRoots | scripts/check-branch-hygiene.py:164-173 | exactly the directories that hold a manifest, each once, longest first and then by name |
| ManifestRoots.ManifestLineIff | scripts/check-branch-hygiene.py:167-172 | the cut at the last slash finds exactly the manifests below the top directory |
| BranchHygiene.ComponentIsNearest | scripts/check-branch-hygiene.py:176-185 | for roots tried longest first, as `FindRoots` gives them, the component is the nearest manifest directory above the path, and the fallback only without one |
| BranchHygiene.Fallbacks | scripts/check-branch-hygiene.py:176-185 | on the text: without a manifest above it, `a/b/rest` belongs to `a/b`, `a/b` to `a`, and `a` to the repository root |
| BranchHygiene.Scope | scripts/check-branch-hygiene.py:215-251 | the paths main advanced in components the branch owns, each once, in order |
| BranchHygiene.RevertedPaths | scripts/check-branch-hygiene.py:215-251 | from what git prints: the report is exactly the paths in scope with reverted lines, with their counts as scanned from the two outputs, the worst first |
| BranchHygiene.CountIsOverlap | scripts/check-branch-hygiene.py:188-251 | for any two diffs, laid out in any chunks and scanned from their lines, the count of a path is the overlap of the edit scripts its two files show, so at least the missing lines |
| BranchHygiene.UnchangedOrDeletedIsNotReported | scripts/check-branch-hygiene.py:215-251 | scanned from the printed lines, a path that the branch has as main does, or that main deleted, counts 0 |
| DerSignature.ReadIsInteger | scripts/sign_artifact_manifest_p256.py:29-62 | an INTEGER that is read has a short-form length and at most 33 octets |
| DerSignature.SignatureRoundTrip | scripts/sign_artifact_manifest_p256.py:65-78 | decoding the DER encoding of r and s below 2^256 gives r and s in 32 octets each |
| DerSignature.Accepts | scripts/sign_artifact_manifest_p256.py:65-78 | every SEQUENCE of two fitting INTEGERs is accepted |
| DerSignature.Accepted | scripts/sign_artifact_manifest_p256.py:65-78 | whatever is accepted is such a SEQUENCE, 8 to 72 octets, short form, with those values |
| DerSignature.ConversionExample | scripts/sign_artifact_manifest_p256.py:29-78 | one conversion octet by octet: the SEQUENCE of the INTEGERs 5 and 7 |
| DerSignature.ValueIsInjective | scripts/sign_artifact_manifest_p256.py:57-62 | octets of one length are determined by their value, so the two halves are the only 32-octet forms of r and s |
| DerSignature.ReencodesIffCanonical | scripts/sign_artifact_manifest_p256.py:65-78 | re-encoding returns the input exactly when both contents are canonical |
| DerSignature.NonCanonicalIsAccepted | scripts/sign_artifact_manifest_p256.py:48-62 | a negative and a padded INTEGER are accepted |
| PathGlob.DoubleStarMatch | scripts/check_consumption_coverage.py:238-256 | terminates and decides whether the target divides into parts, any number of segments per `**` and one matching segment per other part |
| PathGlob.LiteralThenStars | scripts/check_consumption_coverage.py:238-256 | literal segments and then `**` match exactly the targets they begin |
| PathGlob.BareNameIff | scripts/check_consumption_coverage.py:204-205 | a name without slash or star covers exactly the paths that are it or end in a slash and it |
| PathGlob.LiteralPathIff | scripts/check_consumption_coverage.py:206-222 | a path written out in full covers itself and nothing else |
| PathGlob.AnchoredIff | scripts/check_consumption_coverage.py:206-236 | any other pattern without `**` asks for `fnmatch` and for the segments in front of its first wildcard |
| PathGlob.SameAnchorsIff | scripts/check_consumption_coverage.py:214-236 | the segments of path and pattern agree up to the first one with a star or a question mark, and that is all that is asked of them |
| PathGlob.DirectoryStarsIff | scripts/check_consumption_coverage.py:197-211 | a literal directory with `/**` covers exactly itself and everything beneath it |
| PathGlob.CoveredIff | scripts/check_consumption_coverage.py:265-266 | a list of literal directories with `/**` covers a path exactly when the path is one of them or lies beneath one |
| PathGlob.DirectoryStarIff | scripts/check_consumption_coverage.py:214-222 | with `/*` it covers the same |
| PathGlob.StarCrossesSegments | scripts/check_consumption_coverage.py:214-222 | `a/*` matches `a/b/c` and `a` |
| WorkflowParser.ScanWorkflow | scripts/ci/check-backend-rust-phase-wiring.py:194-345 | the line loop computes the scan, refusals included |
| WorkflowLayout.LayoutReadsBack | scripts/ci/check-backend-rust-phase-wiring.py:194-345 | scanning any laid-out workflow, its sections and the parts of its jobs in any order, with anything nested under the keys of a job or a step, gives exactly its jobs, attributes, default shells and steps, and nothing from any other section |
| WorkflowLayout.CommentsAreIgnored | scripts/ci/check-backend-rust-phase-wiring.py:233-235 | a blank or comment line anywhere changes nothing |
| WorkflowLayout.AliasIsRefused | scripts/ci/check-backend-rust-phase-wiring.py:238-248 | an alias, anchor or merge key anywhere refuses the file |
| WorkflowText.AliasIff | scripts/ci/check-backend-rust-phase-wiring.py:238-248 | a line is refused as a reference exactly when it is a merge key, an alias or anchor as a list item, or has one behind a colon and spaces |
| WorkflowRefusals.RepeatedPartIsRefused | scripts/ci/check-backend-rust-phase-wiring.py:277-303 | on the text: after any laid-out beginning, a second list of steps in a job, or a key the job has already, refuses the file, whatever follows |
| WorkflowRefusals.KeyOutsideStepIsRefused | scripts/ci/check-backend-rust-phase-wiring.py:332-333 | on the text: so does a key of a step before any step has begun |
| WorkflowRefusals.RepeatedStepKeyIsRefused | scripts/ci/check-backend-rust-phase-wiring.py:335-342 | on the text: so does one of the six step keys a second time in a step |
| WorkflowRefusals.OddIndentIsRefused | scripts/ci/check-backend-rust-phase-wiring.py:313-330 | on the text: so does a line among the steps at a depth where nothing begins |
| WorkflowYaml.UnconditionalIff | scripts/ci/check-backend-rust-phase-wiring.py:348-358 | a step is unconditional in YAML exactly when the scanner takes it for that and no disqualifying key is quoted |
| WorkflowYaml.QuotedIfIsMissed | scripts/ci/check-backend-rust-phase-wiring.py:334-341 | a step under a quoted `if`, with any condition, counts as running its command |
| WorkflowYaml.DefaultsSeenIff | scripts/ci/check-backend-rust-phase-wiring.py:250-258 | a top-level line with the key defaults opens the defaults section exactly when it is the bare key |
| WorkflowYaml.OtherSectionIsIgnored | scripts/ci/check-backend-rust-phase-wiring.py:250-262 | a section of any other name, wherever it stands, does not change what is read |
| WorkflowYaml.FlowDefaultsAreMissed | scripts/ci/check-backend-rust-phase-wiring.py:250-262 | defaults written on one line, with any value, do not change what is read |
| WiringGate.PhaseCallIff | scripts/ci/check-backend-rust-phase-wiring.py:86-88 | a command invokes a phase exactly when it is the dispatcher, a blank and that phase name |
| WiringText.LoadBearingIff | scripts/ci/check-backend-rust-phase-wiring.py:348-358 | on the lines of a step: it counts exactly when no default names a shell and none of the keys `if`, `continue-on-error` and `shell` is written in it |
| WiringText.RanIff | scripts/ci/check-backend-rust-phase-wiring.py:348-408 | a step runs a command for the gate exactly when it counts and a line of it says `run:` with that command |
| WiringText.PhaseRunIff | scripts/ci/check-backend-rust-phase-wiring.py:348-408 | a job invokes a phase exactly when no line of the defaults or of the job names a shell and some step of it calls the dispatcher with it and has none of the three keys |
| WiringText.ReportedIff | scripts/ci/check-backend-rust-phase-wiring.py:194-703 | on the text of a whole workflow: the gate reports a registered phase as never invoked by a Rust job exactly when the job does not run it in that sense |
| WiringGate.Invoked | scripts/ci/check-backend-rust-phase-wiring.py:398-408 | lists each phase as often as a load-bearing step runs exactly its call |
| WiringGate.GateSteps | scripts/ci/check-backend-rust-phase-wiring.py:411-423 | counts the load-bearing steps of all jobs that run exactly the self-test and the live command |
| WiringGate.OneRuns | scripts/ci/check-backend-rust-phase-wiring.py:411-449 | the gate counts one run of a command exactly when there is one step of one job that runs it |
| WiringGate.AssertWired | scripts/ci/check-backend-rust-phase-wiring.py:430-449 | an error for each of the two counts that is not 1, with the count |
| WiringGate.AssertJobKeys | scripts/ci/check-backend-rust-phase-wiring.py:599-641 | exactly the unknown keys, missing keys and wrong values of the judged jobs |
| WiringGate.KeysExactIff | scripts/ci/check-backend-rust-phase-wiring.py:599-641 | no key error for a job exactly when its attributes are its contract |
| WiringGate.JudgedKeysIff | scripts/ci/check-backend-rust-phase-wiring.py:162-178 | no key error exactly when the three judged jobs carry exactly these keys and values |
| WiringGate.Evaluate | scripts/ci/check-backend-rust-phase-wiring.py:644-703 | refuses exactly an unreadable workflow or one without a judged job; otherwise reports exactly the findings |
| WiringGate.NoFindingIff | scripts/ci/check-backend-rust-phase-wiring.py:644-703 | no finding if and only if registry and functions are permutations of 11 distinct phases, each Rust job runs each of them in exactly one load-bearing step and no other, the judged jobs carry exactly their contract, and the gate runs itself once each way |
| WiringGate.OnceIff | scripts/ci/check-backend-rust-phase-wiring.py:644-660 | a list has no repeats to report exactly when no two places of it agree |
| WiringGate.ListsAgreeIff | scripts/ci/check-backend-rust-phase-wiring.py:654-690 | no set finding if and only if the four lists are repeat-free permutations of each other, of the expected size |
| WiringGate.InertStepIsIgnored | scripts/ci/check-backend-rust-phase-wiring.py:348-423 | on parsed jobs: adding a step that is not load-bearing or runs none of the gate's commands, to any job at any place, changes no finding |
| WiringLayout.InertStepInText | scripts/ci/check-backend-rust-phase-wiring.py:194-423 | on the text: adding such a step anywhere in a list of steps leaves the file readable and changes no finding |
| WiringLayout.FileWithIsOk | scripts/ci/check-backend-rust-phase-wiring.py:194-345 | a workflow with one more step in a list of steps can still be laid out |
| MachO.WalkCommands | scripts/engine-artifact-receipt.py:27-44 | the walk decides the split of the region into load commands, never reading outside it |
| MachO.ImageUuid | scripts/engine-artifact-receipt.py:16-44 | a UUID is returned exactly when the file is eight little-endian words (magic, arm64, any, executable, the number and the total length of the commands, any, any), at most 1 MiB of commands and any rest, with that UUID in the only UUID command |
| MachO.AcceptedIff | scripts/engine-artifact-receipt.py:16-44 | a UUID is returned exactly when the region is laid out as that many commands of length at least 8 and divisible by 8 with exactly one UUID command, of length 24, holding it |
| BackupManager.Manager.Prune | admin/rust/backup-rs/src/lib.rs:168-189 | deletes a legal set of oldest completed rows beyond the retention count, and exactly their files but for those that cannot be removed |
| BackupManager.Manager.RunBackup | admin/rust/backup-rs/src/lib.rs:86-134 | one backup of the log model, files included; reported successful exactly when the copy was made |
| BackupLog.RetentionHolds | admin/rust/backup-rs/src/lib.rs:86-134 | from an empty log, after any run, the completed rows number the successes up to the retention count, each with its own file |
| BackupLog.OtherFilesAreLeftovers | admin/rust/backup-rs/src/lib.rs:86-189 | from an empty log and directory, after any run, a file that belongs to no completed row is a partial file of a failed attempt or one that a prune could not remove |
| BackupLog.DirectoryIsExact | admin/rust/backup-rs/src/lib.rs:168-189 | when no attempt leaves a partial file and every removal works, the directory always holds exactly the files of the completed rows |
| BackupLog.BackupKeeps | admin/rust/backup-rs/src/lib.rs:86-134 | rows that are not completed are never touched, and surviving rows are unchanged |
| BackupLog.FailureIsRecorded | admin/rust/backup-rs/src/lib.rs:97-133 | over any run, an attempt that did not succeed keeps its row for good: running after a crash, failed otherwise |
| BackupLog.RunningMeansCrashed | admin/rust/backup-rs/src/lib.rs:97-133 | over any run, a row that says running was left by a crash |
| BackupLog.SurvivorsAreNewer | admin/rust/backup-rs/src/lib.rs:168-189 | no surviving row is older than any row ever pruned, under any tie-break |
| BackupLog.AlwaysKeptIff | admin/rust/backup-rs/src/lib.rs:168-189 | a row survives every tie-break exactly when fewer than the retention count are not older |
| BackupLog.WorstPrune | admin/rust/backup-rs/src/lib.rs:168-189 | otherwise some legal prune deletes it |
| BackupLog.SecondBackupPrunesItself | admin/rust/backup-rs/src/lib.rs:108-122 | two successful backups at the same time with a retention count of 1, where the second deletes its own row and the file it reports |

## Left out

- ReleaseRuns.PublishedWasGoverned: assumes that nobody else writes tags or releases and that the server does what it reports; `ReleaseCommand` allows drift of the common state, and anything in place of the mutation itself.
- ReleaseCommand.Server.ReadRelease: does not model JSON shape errors or the form of the upload URL, which only add refusals before any mutation.
- ReleaseCommand.Server.ExecuteGovernedRelease: does not model the parsing of arguments (version grammar, flag order, paths), which happens before any request.
- CatFileBatch.BlobBytes: does not model Python's limit of 4300 digits on `int`, nor digits outside ASCII, both unreachable from git's output.
- ChronicRedGate.Gate.Run: does not model the enrollment file, the parsing of dates or sub-second timestamps; times are integers.
- IssueTracker.RunsKeep: assumes serialised rounds, no other writer of these issues and at most 100 open marked ones; beyond that see `IssueFetch.SecondIssueIff`.
- ChronicRedGate.Gate.FetchOrphanIssues: takes the listing to be newest first, which is what the command line client does without a sort option.
- PathGlob.DoubleStarMatch: takes the one-segment matcher as a parameter; of `fnmatch` only its behaviour on literals is used.
- UnifiedDiff.AddedLinesRecovered: does not model paths that git quotes or ends with a tab, nor line separators other than newline.
- WorkflowLayout.LayoutReadsBack: is for jobs of distinct names; a later job of the same name replaces the earlier one, in the scanner as here. Whitespace and word characters are the ASCII ones.
- StringLiteral.EmitReadsBack: does not model literal suffixes; the text after a literal is taken as it stands.
- WorkflowYaml.UnconditionalIff: of YAML's ways to write a key it knows quotes, not escapes inside them nor explicit keys.
- WiringGate.Evaluate: takes the registry and function lists as given, not the regular expressions that extract them, and the two checks of the command's location and root as a list of messages. Error texts and their sorting are not modelled.
- MachO.ImageUuid: takes the file's bytes; opening and reading the file are not modelled.
- BackupManager.Manager.RunBackup: treats SQL other than the copy itself as infallible.
- DerSignature.SignatureRoundTrip: covers the conversion, not signing or the OpenSSL call.
- SHA-256 is an arbitrary function, and git, gh, HTTP, subprocesses, files and SQLite appear only as replies or state steps.
- The fixed v0.1.27 tag, issuer provisioning and recovery adapters of `safe_external_write.py` beyond the batch reader and the worktree check: constants and environment checks.
- The frontend, the API client, the evidence validators, `quarantine_probe.py`, `cargo_test_matrix.py`, `promote_verified_claws.py` and `demote_failed_claws.py`: single passes and user interface whose properties would be easy.
