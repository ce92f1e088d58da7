# A verified model of aux-cli's in-memory logic

aux-cli is a terminal coding agent. Around its user interface, database and
processes it has a core of plain logic whose correctness other parts rely on
without checking it again. This project models that core in Dafny and proves
what the code, its comments and its tests promise of it. Where a promise turns
out not to hold, the code is modelled as it is and the exact condition is proved.

Each group has the same shape. What the code computes is a specification
function. The code's own loops, fields and buffers are methods and classes
proved to compute exactly that function. The promises are lemmas about the
function, stated for every input, every run or every reachable state.

## What is modelled

**The patch engine** (`internal/diff/patch.go`; Text, PatchModel, PatchChunks,
PatchSplice, PatchParser, PatchReading, PatchSafety, PatchAnswers, PatchAccounts,
PatchRoundTrip, PatchCommit, PatchEndToEnd, PatchLimits). A section of a patch is read as operations on lines
and the place where the section was found. `PatchParser` is the cursor parser
with its fields, the fuzzy search and the section reader that builds chunks;
`PatchCommit` is the splice and the commit applier. The main results: an accepted
update is spliced exactly when its edits are in order, and then writes the file with
exactly the chunks' ranges cut and their lines inserted, where every cut line
matches its section at the level that was reported and the chunks are all the
sections' deletions and insertions (`AcceptedUpdateIsFaithful`), which are the lines the
patch marks, to the letter (`AcceptedPatchSaysItsLines`, `CutLineIsMarked`); any edits rendered
as a patch come back, without fuzz, as those edits on disk (`PatchDoesTheEdits`); and
exactly when parsing loops for ever or panics. A Go panic and an endless loop are
outcomes (`Panic`, `Diverge`), not preconditions.

**The exact rank test** (`internal/evalsuite/stats.go`; Binomial, RankTest,
RankLaws, SeriesVerdict). The backtracking enumeration over a shared append buffer
is shown to visit every split exactly once, although siblings overwrite each
other's tails; the p-value lies in (0, 1], is symmetric, respects the combinatorial
floor, and decides what a comparison of two series may conclude. The statistic and the
medians are also defined by counting alone, without ranks or sorting (`PValueMeans`,
`MedianMeans`).

**Prompt compilation** (`internal/promptcompiler`, `internal/eval/compare.go`;
Prompt, PromptLaws). Deduplication, exclusion and pinning of tool results: what is
sent in full and what in its place, to the letter (`SentContents`), when the repository's
own lossless check accepts, and the token accounting.

**Protocols**, each a state machine over the single lock, channel and field
accesses, with theorems about every interleaving:
StreamedWrites (`internal/message`), where coalesced writes refine writing at once;
SessionModes, Permissions, PermissionRuns and PermissionService (`internal/permission`),
where recording a grant before waking the waiter bounds the prompts, and the service's
methods keep the protocol's invariants;
Broker, BrokerLaws and BrokerService (`internal/pubsub`), where no send meets a
closed channel; and Dashboard (`internal/dashboard/server.go`), where every lost
event is followed by a resync marker that arrives.

**Derived state** that must agree with something simpler: Paths, Impact, ImpactIndexer,
ImpactAnalysis and ImpactLaws (`internal/impact`), incremental against full indexing,
whatever way the changed paths are written, and what the graph and the reports say in terms
of directories and import paths; Validation
(`internal/validation`), proof of done over append-only logs; Profile
(`internal/profile/effective.go`), the layered merge and the diff, by type and key.

**Message framing** (`internal/lsp/transport.go`; LspFraming), following the Language
Server Protocol 3.17 specification, section "Base Protocol", "Header Part".

## Where the code and its comments differ

The model follows the code in each case.

- `patch.go:348` says trimmed matches report fuzz 100. They report 1, like
  right-trimmed ones, so fuzz only separates exact from inexact (`PatchSafety.FuzzLevels`).
- A section that opens with an unrecognised `@@x` or `***x` line while the file
  cursor is at the top makes the parser loop for ever (`PatchSafety.UpdateDivergesIff`), and an
  end-of-file section longer than its file panics (`PatchSafety.UpdatePanicsIff`).
- An end-of-file section may land before the end of an earlier section. The patch is
  accepted; the splice refuses it exactly when such a section's edits start before the
  end of an earlier section's edits (`PatchSafety.AcceptedUpdateIsFaithful`,
  `PatchLimits.EofSectionBehindIsRefused`). Overlapping context alone is applied
  (`PatchLimits.EofContextMayOverlap`).
- `*** Move to:` with a name of the file itself deletes the file. Paths are compared as
  strings, but written and removed where they lead, so `./a` does it for `a`, too
  (`PatchCommit.MoveOntoItselfLosesTheFile`, `PatchCommit.MoveToAnotherSpellingLosesTheFile`).
  Updating one file under two names leaves whichever change came last in map order, and
  deleting it under two names fails (`PatchCommit.TwoSpellingsDependOnOrder`,
  `PatchCommit.TwoSpellingsCannotBothBeDeleted`); plain relative paths name different files
  exactly when they differ (`PatchCommit.PlainPathsAreFiles`).
- `stats.go:200-202` calls the comparison's p one-sided with a floor of 0.05. It is
  two-sided; three runs a side reach 0.10 at best (`SeriesVerdict.ThreeRunsNeverConclude`).
- `neededRuns` promises a size that clears the floor. From 12 runs on it returns 12,
  which is no increase, and more than 24 runs in all can never be conclusive
  (`SeriesVerdict.NeededRuns`, `SeriesVerdict.NeverConclusive`).
- `dedup.go` promises that each content stays in full at its last occurrence. If that
  occurrence is crossed off and no copy is pinned, the content is lost although an earlier
  copy is still shown (`PromptLaws.PreservesIff`, `PromptLaws.CrossingOffTheLastCopyLosesIt`).
- A third answer to one permission request can block its sender for ever
  (`PermissionRuns.ThreeAnswersCanStick`). An answer's send can return exactly while its
  channel is not full behind an answered request (`PermissionRuns.SendReturnsIff`), and
  always if no request is answered more than twice (`PermissionRuns.TwoAnswersNeverStick`).
- Two concurrent callers of the broker's `Shutdown` can close `done` twice
  (`BrokerLaws.TwoShutdownsCanCrash`).
- `IndexProject` is called the repair path, but over an existing graph it only adds, so it
  repairs exactly when no file has lost an edge (`Impact.FullBuildRepairsIff`,
  `Impact.FullBuildKeepsADroppedImport`). `Reindex` clears a file's edges under the path as
  it is given and adds them under the path as it is resolved, so a change reported as
  `./a.go` keeps the file's stale edges (`Impact.UncleanPathKeepsStaleEdges`;
  `Impact.ReindexMatchesFullIff` is the exact condition for any list of paths).
- The uncertainty threshold of the impact analysis never decides anything
  (`ImpactAnalysis.ThresholdNeverDecides`).
- A cached pass of another task never validates a criterion, and a failure is never
  undone by a later pass (`Validation.CachedRunValidatesIff`, `Validation.BlockedStaysBlocked`).
- The framing reader recognises one spelling of Content-Length. With another it takes the
  content for empty, which does not decode: the caller gets an error with the payload still
  in the input (`LspFraming.UnrecognisedLengthDesynchronises`). It panics exactly when all
  lengths in a header part are numbers and the last one is negative or larger than the
  largest buffer that can be made, a parameter of the model (`LspFraming.PanicsIff`,
  `LspFraming.NegativeLengthPanics`, `LspFraming.LongLengthPanics`).

The merge and the diff of profiles join a type and a key with a separator. That is safe:
keys never collide as long as no type goes on behind another type and the separator, as none
of the types the program defines does (`Profile.JoinedIsUniqueIff`, `Profile.KindsAreFree`).

## Model

| member | source | states |
|---|---|---|
| `Text.Split` | internal/diff/patch.go:200 | splitting at line breaks never gives the empty list and never leaves a break in a line |
| `Text.SplitJoin` | internal/diff/patch.go:458-470 | splitting the joined lines gives the lines back |
| `Text.TrimSpaceAbsorbsBlanks` | internal/diff/patch.go:318-330 | trimming everything ignores what trimming blanks on the right removes, so the three comparison levels nest |
| `Text.TrimSpaceMeans` | internal/diff/patch.go:328 | trimming cuts white space off both ends of a text and nothing else |
| `PatchChunks.UpdatedOkIff` | internal/diff/patch.go:511-545 | the splice succeeds exactly on chunks that are in order, disjoint and inside the file, and then changes the line count by insertions minus deletions |
| `PatchChunks.SectionMeaning` | internal/diff/patch.go:400-455 | splicing the chunks the section reader builds replays the section's keep, delete and insert lines at its place |
| `PatchChunks.UpdateMeaning` | internal/diff/patch.go:519-545 | sections in order, spliced together, give the file with exactly their ranges replayed and every other line untouched |
| `PatchChunks.ExactReplay` | internal/diff/patch.go:519-545 | where the named lines are there byte for byte, replaying a section writes its context and inserted lines |
| `PatchSplice.SpliceIsCutAndSpliced` | internal/diff/patch.go:511-545 | whenever the splice succeeds it writes the file with exactly the chunks' ranges cut and their lines inserted where they start; every other line is the original one, in order |
| `PatchSplice.SectionSpans` | internal/diff/patch.go:400-455 | a section's chunks run from its first edit to its last, in order, each cutting the very lines the section names there, and together are all its deleted and inserted lines; none exactly when it edits nothing |
| `PatchSplice.SectionsFitIff` | internal/diff/patch.go:511-545 | the splice takes the chunks of sections inside the file exactly when each section's edits, contexts aside, come after those of the sections before it |
| `PatchSplice.ChunksAreTheEdits` | internal/diff/patch.go:400-455 | the chunks of all sections delete and insert, in order, exactly the sections' deleted and inserted lines |
| `PatchSplice.ChunkComesFromSection` | internal/diff/patch.go:260-275 | every chunk lies inside a section where that was found and cuts the lines the section names there |
| `PatchSplice.ChunksAreRuns` | internal/diff/patch.go:423-450 | no chunk of a section is empty, and a kept line lies between any two |
| `PatchParser.TryFindMatch` | internal/diff/patch.go:335-360 | finds the first place from the start on where the context matches at the level, or reads outside the file when the start is negative |
| `PatchParser.FindContextCore` | internal/diff/patch.go:305-332 | tries the three levels in order: the first place at the strictest level that has one |
| `PatchParser.FindContextFrom` | internal/diff/patch.go:362-372 | an end-of-file context is looked for at the end first and then from the cursor, with fuzz raised by 10000 |
| `PatchParser.FindDefinition` | internal/diff/patch.go:221-259 | where a header moves the cursor: behind an exact line not already passed, else behind a trimmed one at fuzz 1 |
| `PatchParser.PeekNextSection` | internal/diff/patch.go:374-456 | the buffers and counters of the section loop yield, of the section's raw lines, those not marked '+' as context, those marked '-' as the chunks' deletions and those marked '+' as their insertions, in order, and exactly the chunks of these operations |
| `PatchParser.Parser.IsDone` | internal/diff/patch.go:88-98 | done at the end of the patch or at one of the prefixes; otherwise the cursor is inside |
| `PatchParser.Parser.ReadString` | internal/diff/patch.go:117-132 | consumes a line with the prefix and returns the rest of it or the whole line |
| `PatchParser.Parser.TakeTurn` | internal/diff/patch.go:211-275 | one turn of the section loop: new cursors, fuzz and the section's chunks moved to where it was found, or the error, panic or endless loop |
| `PatchParser.Parser.ParseUpdateFile` | internal/diff/patch.go:198-277 | all sections of one update as the specification reads them, errors, panics and endless loops included |
| `PatchParser.Parser.ParseAddFile` | internal/diff/patch.go:279-302 | the added lines without their marks, or the first line that has none |
| `PatchParser.Parser.ParseOne` | internal/diff/patch.go:137-188 | one entry: update, delete or add, with duplicate, missing and existing paths refused |
| `PatchParser.Parser.Parse` | internal/diff/patch.go:134-196 | the stored actions, the cursor and the fuzz after the whole body are those of the specification |
| `PatchParser.TextToPatch` | internal/diff/patch.go:458-470 | the patch of the text and its fuzz, or why there is none |
| `PatchParser.IdentifyFilesNeeded` | internal/diff/patch.go:472-491 | lists exactly the files named by update and delete lines, each once |
| `PatchParser.IdentifyFilesAdded` | internal/diff/patch.go:493-509 | lists exactly the files named by add lines, each once |
| `PatchSafety.FuzzLevels` | internal/diff/patch.go:347-355 | both trimmed levels report fuzz 1, the exact one 0; 100 is never reported |
| `PatchSafety.LevelsNest` | internal/diff/patch.go:309-331 | each comparison level accepts what the stricter one accepts |
| `PatchSafety.FindCoreIsBest` | internal/diff/patch.go:305-332 | if the context matches anywhere from the start on, a place is found, and none is stricter or earlier at the same level |
| `PatchSafety.UpdatePlaces` | internal/diff/patch.go:198-277 | every section of a parsed update lies inside the file where its lines match at the reported level, behind the sections before it unless it is an end-of-file one; fuzz 0 means byte for byte |
| `PatchSafety.InOrderIff` | internal/diff/patch.go:260-275 | the sections are in order exactly when no end-of-file section landed before the end of an earlier one |
| `PatchSafety.AcceptedPatchIsSound` | internal/diff/patch.go:134-196 | an accepted patch updates and deletes files that exist, adds files that do not, and places every update |
| `PatchSafety.EditsInOrderIff` | internal/diff/patch.go:260-275 | edits are in order exactly when no end-of-file section edits before the end of an earlier section's edits |
| `PatchSafety.ChunkCutsMatching` | internal/diff/patch.go:198-277 | every chunk of placed sections cuts lines that match its section's deleted lines at the section's level, byte for byte without fuzz |
| `PatchSafety.AcceptedUpdateIsFaithful` | internal/diff/patch.go:198-277 | every accepted update: its sections lie where they match; the splice succeeds exactly when no end-of-file section edits before the end of an earlier section's edits, and then writes the file with exactly the chunks cut and spliced in, with the line count it must have; each chunk cuts only lines that match, byte for byte at fuzz 0; the chunks are all the deletions and insertions |
| `PatchSafety.InOrderUpdateIsReplay` | internal/diff/patch.go:198-277 | with whole end-of-file sections behind the earlier ones, an accepted update writes the replay of its sections |
| `PatchSafety.StuckTurnRepeats` | internal/diff/patch.go:211-219 | a turn fails to advance exactly at the top of the file on a line that opens no section, and then repeats for ever |
| `PatchSafety.LocateAtTop` | internal/diff/patch.go:221-259 | a header leaves the file cursor at the top exactly when it names no line of the file |
| `PatchSafety.StaysOffTop` | internal/diff/patch.go:260-275 | a turn leaves the file cursor at the top exactly when its header names no line and it expects none, and never moves it back there |
| `PatchSafety.UpdateDivergesIff` | internal/diff/patch.go:211-276 | exactly which patches make an update loop for ever, read off the patch and the file |
| `PatchSafety.TurnPanicsIff` | internal/diff/patch.go:362-372 | a turn panics exactly on an end-of-file section that names more lines than the file has |
| `PatchSafety.UpdatePanicsIff` | internal/diff/patch.go:198-277 | an update panics exactly when the sections before an end-of-file section longer than the file are all found |
| `PatchAnswers.WellMarkedPatchAnswers` | internal/diff/patch.go:134-302 | a patch with recognised markers, whose end-of-file sections fit the file they update, is always answered, without a loop and without reading outside |
| `PatchAnswers.PlanFilesAreIdentified` | internal/diff/patch.go:472-509 | the updated and deleted files of an accepted patch are among the files needed, the added ones among the files added |
| `PatchReading.SectionReads` | internal/diff/patch.go:374-456 | read off the raw lines: the lines a section expects are those not marked '+', without their mark, empty and unmarked lines whole; its chunks delete the rests of the lines marked '-' and insert the rests of those marked '+' |
| `PatchReading.AcceptedPatchSaysItsLines` | internal/diff/patch.go:134-302 | every entry of an accepted patch is what the lines between its marker and the next say: expected, deleted and inserted lines and the new name of an update, the content of an addition |
| `PatchReading.CutLineIsMarked` | internal/diff/patch.go:198-277 | an accepted patch cuts a line of a file only if that file's entry has a line marked '-' that matches it, byte for byte at fuzz 0 |
| `PatchAccounts.HeaderLeads` | internal/diff/patch.go:221-259 | where a header leads: nowhere if its name is blank, stands earlier or nowhere; behind the next line that is the name; failing that, at fuzz 1, behind the next that reads like it unless an earlier one does |
| `PatchAccounts.FuzzAddsUp` | internal/diff/patch.go:198-277 | the fuzz of an update is 1 for each section not matched byte for byte, 10000 for each end-of-file section found elsewhere, and 1 for each header found only by its trimmed text |
| `PatchAccounts.TurnRefusals` | internal/diff/patch.go:216-268 | a refused turn names the line that opens no section, or the lines that are nowhere from where the header led, white space apart, with that place |
| `PatchAccounts.EntryRefusals` | internal/diff/patch.go:137-188 | an entry is refused as a duplicate, as missing or as existing, in this order, and any other line as unknown |
| `PatchAccounts.EnvelopeIsNeeded` | internal/diff/patch.go:458-463 | an accepted text begins and ends with the patch markers; one that does not is refused for that |
| `PatchAccounts.AcceptedPatchNamesOnce` | internal/diff/patch.go:134-196 | up to the first line that ends an accepted patch, the patch's files are exactly those named by entry lines, and no two entry lines name one file |
| `PatchRoundTrip.RoundTrip` | internal/diff/patch.go:458-470 | any edits that fit the files, rendered as a patch, are parsed back as those edits with fuzz 0 |
| `PatchRoundTrip.RewriteGivesNewLines` | internal/diff/patch.go:511-545 | applying the parsed full-context section gives exactly the script's new lines |
| `PatchCommit.GetUpdatedFile` | internal/diff/patch.go:511-546 | the loop over the chunks gives the spliced text, or the error of the first chunk that does not fit |
| `PatchCommit.PatchToCommit` | internal/diff/patch.go:548-581 | the commit holds the change of every action, with the old content it replaces, or the error of one of its updates |
| `PatchCommit.ApplyChange` | internal/diff/patch.go:583-616 | one change's writes and removals in the files its paths name, stopping at the first that fails, a removal of a missing file included; a move writes the target before it removes the source |
| `PatchCommit.ApplyCommit` | internal/diff/patch.go:583-616 | applies the changes in some order, each once, until one fails |
| `PatchCommit.OrderIndependentIff` | internal/diff/patch.go:583-616 | the final files are the same in every order exactly when no two changes leave different things in one file, under whatever paths |
| `PatchCommit.OrderIsPureUpdate` | internal/diff/patch.go:583-616 | compatible changes end, in every order, in one update of the old files |
| `PatchCommit.PureUpdateIsOne` | internal/diff/patch.go:583-616 | that update determines the files completely |
| `PatchCommit.MoveOntoItselfLosesTheFile` | internal/diff/patch.go:595-612 | a moved file's text is in the target's file afterwards exactly when the target names another file |
| `PatchCommit.PlainPathsAreFiles` | internal/llm/tools/patch.go:260-283 | in a working directory, plain relative paths name different files exactly when they differ |
| `PatchCommit.MoveToAnotherSpellingLosesTheFile` | internal/llm/tools/patch.go:260-283 | moving a file to "./" and its own path loses it |
| `PatchCommit.TwoSpellingsDependOnOrder` | internal/llm/tools/patch.go:260-283 | updating a file under both names with different texts depends on the order |
| `PatchCommit.TwoSpellingsCannotBothBeDeleted` | internal/llm/tools/patch.go:260-283 | deleting a file under both names fails in either order |
| `PatchCommit.MovesNeverLoseText` | internal/diff/patch.go:595-612 | for changes of different files, whatever write or removal fails, and wherever the commit stops, the text of a file moved to another file is still in the source or already in the target |
| `PatchCommit.SuccessIsTheRun` | internal/diff/patch.go:583-616 | whatever the disk's faults, when no attempt fails the attempts are the whole run |
| `PatchCommit.AllSucceed` | internal/diff/patch.go:583-616 | changes of different files all succeed, in any order, on a disk without faults that has the files to be removed |
| `PatchEndToEnd.PatchDoesTheEdits` | internal/diff/patch.go:458-616 | a patch rendered for edits that fit and change different files is accepted without fuzz; its commit in any order leaves exactly what the edits say in the files their paths name and every other file alone; and no attempt fails on a disk without faults that holds the files read |
| `PatchEndToEnd.ApartIsCompatible` | internal/diff/patch.go:548-616 | edits of different files give compatible changes |
| `PatchLimits.UnknownHeaderLoops` | internal/diff/patch.go:211-219 | the header `@@x` makes parsing loop for ever |
| `PatchLimits.LongEofSectionPanics` | internal/diff/patch.go:362-372 | an end-of-file section of two lines on a one-line file panics |
| `PatchLimits.TwoSectionsAreAccepted` | internal/diff/patch.go:198-277 | a patch text with a section over a whole file and an end-of-file section on its last line is accepted without fuzz, for any edits |
| `PatchLimits.EofSectionIsRefusedIff` | internal/diff/patch.go:519-529 | the commit of that patch refuses the update exactly when the first section edits behind where the second begins to |
| `PatchLimits.EofSectionBehindIsRefused` | internal/diff/patch.go:519-529 | the text that deletes the only line, and deletes it again at the end of the file, is accepted and its commit refused |
| `PatchLimits.EofContextMayOverlap` | internal/diff/patch.go:519-529 | a text whose sections overlap in context only is accepted, out of order, and committed |
| `PatchLimits.LastLineIsFound` | internal/diff/patch.go:362-372 | the last line is found again by an end-of-file section although the cursor is past it |
| `Binomial.BinomialOf` | internal/evalsuite/stats.go:347-353 | the running product is the exact binomial coefficient at every turn, so the result is |
| `Binomial.ChooseStep` | internal/evalsuite/stats.go:347-353 | the recurrence between neighbouring coefficients that the product uses |
| `RankTest.UStatistic` | internal/evalsuite/stats.go:122-135 | the double loop counts pairs below as 1 and ties as one half |
| `RankTest.Split` | internal/evalsuite/stats.go:137-150 | the group holds the values at the chosen indices and the rest the others, both in order |
| `RankTest.Append` | internal/evalsuite/stats.go:97-112 | an append on a shared buffer changes nothing before the slice's end |
| `RankTest.Enumeration.Walk` | internal/evalsuite/stats.go:97-112 | the backtracking over the shared buffer visits all extensions of the chosen prefix, in order, and leaves the prefix intact |
| `RankTest.Enumeration.Visit` | internal/evalsuite/stats.go:98-106 | each complete choice is counted once, and as extreme when its deviation reaches the observed one |
| `RankTest.MasksCount` | internal/evalsuite/stats.go:81-118 | the number of splits visited is the binomial coefficient |
| `RankTest.MannWhitneyP` | internal/evalsuite/stats.go:81-118 | the result is the share of all splits at least as extreme as the observed one, and 1 for empty or too large groups |
| `RankLaws.VisitsIff` | internal/evalsuite/stats.go:97-112 | the enumeration visits exactly the splits with the right group size |
| `RankLaws.MasksDistinct` | internal/evalsuite/stats.go:97-112 | no split is visited twice |
| `RankLaws.UComplement` | internal/evalsuite/stats.go:122-135 | the two statistics of a pair of groups add up to the number of pairs |
| `RankLaws.URange` | internal/evalsuite/stats.go:122-135 | the statistic lies between 0 and the number of pairs |
| `RankLaws.UTopIff` | internal/evalsuite/stats.go:122-135 | it reaches the top exactly when the first group lies below the second |
| `RankLaws.Symmetric` | internal/evalsuite/stats.go:81-118 | the p-value does not depend on which group is called first |
| `SeriesVerdict.PValueRange` | internal/evalsuite/stats.go:81-118 | the p-value lies in (0, 1] |
| `SeriesVerdict.FloorHolds` | internal/evalsuite/stats.go:74-78 | with n runs a side the p-value is never below 2 / C(2n, n), and never below one split in all |
| `SeriesVerdict.SeparatedReachesFloor` | internal/evalsuite/stats.go:74-78 | groups that do not overlap reach that floor exactly |
| `SeriesVerdict.IdenticalIsOne` | internal/evalsuite/stats.go:81-118 | a group compared with itself gives 1 |
| `SeriesVerdict.PValueMeans` | internal/evalsuite/stats.go:62-118 | the p-value is the share of all splits into groups of the two sizes in which the pairs won by one group exceed those won by the other at least as clearly as in the runs as they came; pairs are counted in integers, without ranks or centre |
| `SeriesVerdict.FourClear` | internal/evalsuite/stats.go:51-55 | four runs a side are the least that can reach the significance level |
| `SeriesVerdict.NeededRuns` | internal/evalsuite/stats.go:338-345 | below 12 the answer is the least larger size whose floor is significant; from 12 on it is 12 |
| `SeriesVerdict.NeededRunsIs` | internal/evalsuite/stats.go:338-345 | that answer is 4 below four runs and one more run above |
| `SeriesVerdict.StatMeans` | internal/evalsuite/stats.go:152-168 | the extremes are values of the series, bound it, and enclose the median |
| `SeriesVerdict.MedianMeans` | internal/evalsuite/stats.go:158-168 | by counting over the values as they came: of an odd number the median is a value with more than half of them at most and more than half at least as large; of an even number, half the sum of the two such values |
| `SeriesVerdict.MedianIsOne` | internal/evalsuite/stats.go:158-168 | that leaves one number |
| `SeriesVerdict.SpreadMeans` | internal/evalsuite/stats.go:34-39 | the spread times the median is the largest difference between two values |
| `SeriesVerdict.NoSpread` | internal/evalsuite/stats.go:34-39 | with a median of 0, or no values, the spread is 0 |
| `SeriesVerdict.Disjoint` | internal/evalsuite/stats.go:321-334 | true exactly when one group lies wholly below the other |
| `SeriesVerdict.CompareSeries` | internal/evalsuite/stats.go:221-287 | the p-value, separation, noise floor, relative change of the medians and conclusion of a comparison |
| `SeriesVerdict.ThreeRunsNeverConclude` | internal/evalsuite/stats.go:221-287 | three runs a side or fewer are never conclusive |
| `SeriesVerdict.SeparatedConcludesIff` | internal/evalsuite/stats.go:221-287 | separated series of equal size that lose no success conclude exactly from 4 to 12 runs a side |
| `SeriesVerdict.ConcludesIff` | internal/evalsuite/stats.go:221-287 | conclusive exactly with two runs a side, a p-value of at most 0.05, and medians of the success rates, by counting, that do not fall |
| `SeriesVerdict.NeverConclusive` | internal/evalsuite/stats.go:221-287 | a series against itself, more than 24 runs in all, and a loss of success are never conclusive: if at some rate most runs of the first series reached it and most of the second did not, there is a loss |
| `Prompt.StubsAreShort` | internal/promptcompiler/dedup.go:121-123 | a reference is shorter than any content it may replace, and than the size limit |
| `Prompt.CleanMessages` | internal/promptcompiler/compiler.go:292-301 | the loop keeps exactly the messages with parts, in order |
| `Prompt.EstimateMessages` | internal/promptcompiler/compiler.go:305-322 | the accumulated estimate is a quarter of all counted bytes, rounded up |
| `Prompt.ApplyExclusions` | internal/promptcompiler/compiler.go:252-285 | every excluded, unpinned result becomes a stub and nothing else changes, with or without the early return |
| `Prompt.Scan` | internal/promptcompiler/dedup.go:76-95 | after the scan the two maps hold the number of copies and the last place of every large content |
| `Prompt.ScanDecides` | internal/promptcompiler/dedup.go:97-116 | the maps decide exactly whether a content comes again later |
| `Prompt.DedupRepeatedContent` | internal/promptcompiler/dedup.go:76-119 | exactly the large, unpinned results with a later copy become references |
| `Prompt.CompileCompat` | internal/promptcompiler/compiler.go:108-132 | what the compatibility compiler sends and estimates |
| `Prompt.CompileDedup` | internal/promptcompiler/dedup.go:30-68 | what the dedup compiler sends, estimates and claims to have saved |
| `Prompt.PreservesContent` | internal/eval/compare.go:51-73 | the lossless check accepts exactly when every large content of the control is sent by the variant |
| `PromptLaws.CompilersKeepShape` | internal/promptcompiler/dedup.go:30-68 | both compilers keep number, order, ids and every field but result contents |
| `PromptLaws.CleanIs` | internal/promptcompiler/compiler.go:292-301 | cleaning drops exactly the messages without parts |
| `PromptLaws.PinnedIsUnchanged` | internal/promptcompiler/dedup.go:97-116 | both compilers send a pinned result unchanged at its place |
| `PromptLaws.SentContents` | internal/promptcompiler/compiler.go:252-289 | what both compilers send for a result of any size: crossed off and not pinned, the stub with the length it replaces; otherwise the content, or, from the dedup compiler, the reference if it is at least 200 bytes, not pinned and comes again later |
| `PromptLaws.OtherPartsAreSent` | internal/promptcompiler/compiler.go:252-285 | both compilers send every part that is no tool result as it is |
| `PromptLaws.DigitsAreDecimal` | internal/promptcompiler/compiler.go:287-289 | the number in a stub is the length in decimal, without leading zeros |
| `PromptLaws.EstimateMeans` | internal/promptcompiler/compiler.go:305-322 | the estimate is the least number of tokens of four bytes that hold all counted text: texts, thoughts, call names and inputs, results |
| `PromptLaws.AddendumMeans` | internal/promptcompiler/compiler.go:134-146 | the addendum is the project section and then the task section with a blank line between, so its beginning is the same for every task |
| `PromptLaws.SentInFullIff` | internal/promptcompiler/dedup.go:97-116 | a large result is sent in full exactly when pinned, or shown and the last with its content |
| `PromptLaws.SendsIffCopyKept` | internal/promptcompiler/dedup.go:76-119 | a large content is sent exactly when its last copy is shown or some copy is pinned |
| `PromptLaws.PreservesIff` | internal/eval/compare.go:51-73 | exactly when the dedup compiler passes the lossless check under exclusions and pins |
| `PromptLaws.DedupIsLossless` | internal/eval/compare.go:24-73 | without exclusions the lossless check always passes |
| `PromptLaws.CrossingOffTheLastCopyLosesIt` | internal/promptcompiler/dedup.go:97-116 | crossing off the last of two equal results loses their content |
| `PromptLaws.DedupIsIdempotent` | internal/promptcompiler/dedup.go:76-119 | a second pass replaces nothing more |
| `PromptLaws.DedupShortens` | internal/promptcompiler/dedup.go:76-119 | deduplication never makes the prompt longer |
| `PromptLaws.SavedTokensAddUp` | internal/promptcompiler/dedup.go:48-60 | without exclusions the tokens saved and the tokens sent add up to the full transcript |
| `PromptLaws.CompareCompilers` | internal/eval/compare.go:24-47 | comparing the compilers on a history: outcome preserved, never more tokens, and the saving is the difference |
| `StreamedWrites.Service.ScheduleWrite` | internal/message/streaming.go:57-69 | the latest content replaces a pending one under its running timer, or arms a new timer |
| `StreamedWrites.Service.FlushLocked` | internal/message/streaming.go:94-107 | a pending write leaves the table of pending writes, its timer is stopped, and the row gets its content |
| `StreamedWrites.Service.FlushPending` | internal/message/streaming.go:79-90 | flushing all, in whatever order, writes every pending content and leaves none |
| `StreamedWrites.Service.DiscardLocked` | internal/message/streaming.go:116-121 | a pending write is dropped with its timer and nothing is written |
| `StreamedWrites.Service.Update` | internal/message/message.go:121-126 | a direct update drops the pending write and writes, in one step |
| `StreamedWrites.Service.UpdateStreamed` | internal/message/message.go:133-138 | a streamed update only schedules |
| `StreamedWrites.Service.FlushStreamed` | internal/message/message.go:142-144 | a forced flush of one message |
| `StreamedWrites.Service.CallbackRuns` | internal/message/streaming.go:57-69 | a timer's callback flushes whatever is pending for its message when it gets the lock |
| `StreamedWrites.RunKeepsInv` | internal/message/streaming.go:57-121 | in every run each pending write has an armed timer of its own or a started callback, and is newer than the row it replaces |
| `StreamedWrites.CoalescingRefinesEager` | internal/message/streaming.go:57-121 | in every interleaving with timers and late callbacks, the table overlaid with the pending writes is the table that writes every update at once |
| `StreamedWrites.QuietIsDurable` | internal/message/streaming.go:57-121 | once no timer is armed and no callback waits, the table itself is that table |
| `StreamedWrites.DeltasCoalesce` | internal/message/streaming.go:17-69 | any number of streamed updates of a message in a row write nothing, arm one timer at most and leave the last content pending; a timer already armed stays |
| `StreamedWrites.RunKeepsOwned` | internal/message/streaming.go:57-121 | in every run each armed timer is the one of a pending write, so a message has at most one and a flushed write leaves none |
| `StreamedWrites.RowsNeverRevert` | internal/message/message.go:112-126 | no run ever takes a row back to older content |
| `StreamedWrites.NothingLandsAfterUpdate` | internal/message/message.go:112-126 | after a direct update nothing buffered before it ever lands |
| `StreamedWrites.FailedFlushLosesIff` | internal/message/streaming.go:94-107 | if the write of a flush fails, the update is lost exactly when the row exists and held something else |
| `SessionModes.NearestModeWins` | internal/permission/permission.go:236-248 | the guarded walk answers for the whole chain of ancestors, cyclic or not: the nearest mode, and none exactly when no ancestor has one |
| `SessionModes.ModeUnfolds` | internal/permission/permission.go:233-248 | a session's own mode decides, approval before denial; without one its parent's answer is its own, around cycles too |
| `SessionModes.LinkedChildFollows` | internal/permission/permission.go:218-225 | a linked child without a mode of its own has its parent's mode, whatever other links exist |
| `Permissions.ExclusiveKept` | internal/permission/permission.go:160-162 | one caller at a time is between taking and releasing the prompt lock |
| `Permissions.RegisteredKept` | internal/permission/permission.go:172-173 | a channel can be found exactly while its request is asking |
| `Permissions.RefusalsKept` | internal/permission/permission.go:154-158 | each session's denied list holds exactly the requests it refused, once each |
| `Permissions.RunKeepsInv` | internal/permission/permission.go:114-204 | every interleaving of requests, answers and mode changes keeps all of these together |
| `Permissions.AtMostOnePending` | internal/permission/permission.go:160-186 | at most one request is ever pending, and it is the lock holder's |
| `Permissions.OutcomeHasACause` | internal/permission/permission.go:138-186 | a request is allowed only by an auto-approving session, a recorded grant with its key or an allowing answer to its own id, and refused only by a denying session that lists it or a denial of its own id |
| `Permissions.GrantAllowsOneMorePrompt` | internal/permission/permission.go:105-122 | once a grant is recorded its key is prompted for at most once more, and only by a caller already past its check |
| `Permissions.WokenByPersistEndsPrompts` | internal/permission/permission.go:105-122 | after a request was woken by a persistent grant of its key, no request with that key is ever published again |
| `Permissions.OneMorePromptCanHappen` | internal/permission/permission.go:105-122 | a request past its check is published although its key is granted meanwhile |
| `PermissionRuns.GrantedKeyCanStillPrompt` | internal/permission/permission.go:105-122 | that bound of one is reached: a run in which a granted key that was not pending is prompted for |
| `PermissionRuns.SwappedOrderPromptsAgain` | internal/permission/permission.go:105-122 | with waking before recording, a request woken by a persistent grant of its key is followed by another prompt for that key |
| `Permissions.LateReplyBlocksForEver` | internal/permission/permission.go:124-136 | once a request has its answer and its channel is full again, a further reply to it blocks for ever |
| `PermissionRuns.RunKeeps` | internal/permission/permission.go:114-186 | in every run a full channel holds an answer sent to it, an answer being sent has found a channel that was stored, and an answer taken was sent to its request |
| `PermissionRuns.SendReturnsIff` | internal/permission/permission.go:119-136 | in every reachable state the send of an answer can return exactly if its channel is not full behind an answered request |
| `PermissionRuns.ThreeAnswersCanStick` | internal/permission/permission.go:119-136 | a run from the start with one request and three answers after which the third never returns |
| `PermissionRuns.TwoAnswersNeverStick` | internal/permission/permission.go:119-136 | in a run with at most two answers to a request no answer to it is ever stuck |
| `PermissionService.Service.SessionModeLocked` | internal/permission/permission.go:236-248 | the loop with its set of seen sessions terminates and computes the walk |
| `PermissionService.Service.HasSessionGrant` | internal/permission/permission.go:191-204 | true exactly when a grant with the same tool, action, session, path and fingerprint is recorded |
| `PermissionService.Service.Denied` | internal/permission/permission.go:227-231 | the list holds exactly the requests the session refused, each once |
| `PermissionService.Service.LinkSession` | internal/permission/permission.go:218-225 | links to another, named session and ignores the rest |
| `PermissionService.Service.RequestUntilPrompt` | internal/permission/permission.go:138-181 | a request with nobody else at work is answered at once exactly when a mode decides or its key is granted; otherwise it is published and the one pending request |
| `PermissionService.Service.PromptUnlessGranted` | internal/permission/permission.go:166-181 | under the prompt lock: answered exactly by a recorded grant, otherwise published as the one pending request |
| `PermissionService.Service.TakeAnswer` | internal/permission/permission.go:179-185 | the request returns an answer that was sent to its own id, is no longer pending, and the prompt lock is free |
| `PermissionService.Service.Reply` | internal/permission/permission.go:114-136 | a whole answer: a persistent one is recorded, and the request has the answer exactly if it is pending |
| `PermissionService.Service.Enter` | internal/permission/permission.go:138-158 | a request enters with a fresh id and the invariants hold |
| `PermissionService.Service.ReadMode` | internal/permission/permission.go:138-144 | the mode of the request's session decides where it goes next, and the invariants hold |
| `PermissionService.Service.RecordRefusal` | internal/permission/permission.go:159-164 | the refusal is appended to the list of the session that refused, and the invariants hold |
| `PermissionService.Service.CheckGrants` | internal/permission/permission.go:170-174 | under the prompt lock the request is granted exactly by a recorded grant with its key |
| `PermissionService.Service.Publish` | internal/permission/permission.go:178-181 | whoever publishes is the only pending request |
| `PermissionService.Service.Answer` | internal/permission/permission.go:114-136 | a persistent grant is recorded before its answer looks for the channel, and the invariants hold |
| `PermissionService.Service.Load` | internal/permission/permission.go:119-136 | an answer finds the channel exactly while the request is registered |
| `PermissionService.Service.Send` | internal/permission/permission.go:119-136 | the send fills the one-place channel of its request |
| `PermissionService.Service.Receive` | internal/permission/permission.go:183-184 | the answer received is one that was sent to this request, and the channel is empty again |
| `PermissionService.Service.Unlock` | internal/permission/permission.go:166-186 | leaving frees the prompt lock, and what the request returns is warranted by a recorded grant with its key or an answer to its own id |
| `Broker.LockKept` | internal/pubsub/broker.go:32-124 | the lock has one writer or some readers, and each operation knows whether it holds it |
| `Broker.SubscribeKeepsChans` | internal/pubsub/broker.go:51-68 | subscribing keeps subscribers' channels open and each watched by one goroutine |
| `Broker.CancelKeepsChans` | internal/pubsub/broker.go:70-82 | a cancel goroutine removes and closes only a channel that is still open |
| `Broker.ShutdownKeepsChans` | internal/pubsub/broker.go:32-49 | closing all subscribers closes only open channels, unless a second Shutdown closes done |
| `Broker.SendKeepsEvents` | internal/pubsub/broker.go:117-123 | a send offers an event to a channel once and drops it only when the buffer is full |
| `Broker.CrashIffClash` | internal/pubsub/broker.go:32-124 | a step crashes exactly when a second Shutdown closes done |
| `Broker.RunIsSafe` | internal/pubsub/broker.go:32-124 | every run that has not crashed keeps all invariants |
| `BrokerLaws.OneShutdownNeverCrashes` | internal/pubsub/broker.go:32-124 | with one caller of Shutdown no interleaving sends on, or closes, a closed channel |
| `BrokerLaws.TwoShutdownsCanCrash` | internal/pubsub/broker.go:32-38 | two concurrent callers of Shutdown can close done twice |
| `BrokerLaws.ShutdownClosesAll` | internal/pubsub/broker.go:32-49 | once Shutdown has finished every subscriber channel is closed and there is no subscriber |
| `BrokerLaws.CounterIsExact` | internal/pubsub/broker.go:87-91 | whenever the lock is not held for writing the counter is the number of subscribers |
| `BrokerLaws.SnapshotIsEverySubscriber` | internal/pubsub/broker.go:107-123 | a publish under way reaches exactly the subscribers of that moment, all open until reached |
| `BrokerLaws.NothingMissed` | internal/pubsub/broker.go:107-123 | a finished publish was offered once to each subscriber of its snapshot; one that never overflowed has it, in order |
| `BrokerLaws.StreamStep` | internal/pubsub/broker.go:107-124 | a step adds an event to what an open channel has received or holds exactly when a publish under way reaches it and fewer than 64 events wait; nothing is taken out or reordered |
| `BrokerLaws.NothingWithdrawn` | internal/pubsub/broker.go:32-124 | in every run what a channel has received or holds stays the beginning of its stream |
| `BrokerLaws.KeepingUpNeverOverflows` | internal/pubsub/broker.go:10 | a subscriber whose backlog stays under 64 never overflows |
| `BrokerLaws.KeepingUpMissesNothing` | internal/pubsub/broker.go:93-123 | a subscriber whose backlog stays under 64 has every event published to it, each once |
| `BrokerService.Service.Subscribe` | internal/pubsub/broker.go:51-85 | adds one open, counted channel, or returns a closed one after Shutdown |
| `BrokerService.Service.Cancel` | internal/pubsub/broker.go:70-82 | closes and removes exactly that subscriber, and nothing after Shutdown |
| `BrokerService.Service.Publish` | internal/pubsub/broker.go:107-124 | the loop sends to every subscriber once and to nobody else |
| `BrokerService.Service.Shutdown` | internal/pubsub/broker.go:32-49 | the loop closes every subscriber once; a second call does nothing |
| `Dashboard.StepKeepsInv` | internal/dashboard/server.go:546-563 | every send, pop, marker, drain, registration and exit keeps the queues bounded, the losses announced and the channels open |
| `Dashboard.MarkerAlwaysFits` | internal/dashboard/server.go:546-563 | in every interleaving with draining clients the marker's send never falls through, and no closed channel is touched |
| `Dashboard.LossIsAnnounced` | internal/dashboard/server.go:546-563 | whatever was lost for a client, a marker sent after the loss was received or is still queued; a client that lost nothing has everything in order |
| `Dashboard.OwedMarkerComes` | internal/dashboard/server.go:552-560 | a marker still owed is sent by the broadcast's next two steps |
| `Dashboard.FullQueueEndsInMarker` | internal/dashboard/server.go:546-563 | a broadcast to a full queue drops its oldest entry and ends it with a marker |
| `Dashboard.StepsAreBroadcast` | internal/dashboard/server.go:546-563 | the single steps of a broadcast append the event to a queue of fewer than 128, and otherwise drop the oldest entry and append a marker |
| `Dashboard.Server.Register` | internal/dashboard/server.go:420-423 | a new client gets an empty queue and the others are untouched |
| `Dashboard.Server.Leave` | internal/dashboard/server.go:424-431 | the handler closes its channel exactly if it is still registered |
| `Dashboard.Server.Broadcast` | internal/dashboard/server.go:546-563 | every registered client's queue, and no other, after an uninterrupted broadcast |
| `Dashboard.Server.Shutdown` | internal/dashboard/server.go:123-128 | every client is removed and its channel closed once |
| `Paths.CleanPathStays` | internal/impact/indexer.go:101 | a relative path of plain names means itself, whatever the root |
| `Paths.DotIsDropped` | internal/impact/indexer.go:101 | with "./" in front it means the same file |
| `Paths.UpCancels` | internal/impact/indexer.go:101 | a name and the ".." after it are dropped |
| `Paths.ResolveNamesTheSameFile` | internal/impact/indexer.go:101-182 | the path that a relative path is resolved to names the same file below the root |
| `Impact.EdgesTouchTheirFile` | internal/impact/indexer.go:132-170 | a file's edges touch that file's node and no other file's |
| `Impact.ReindexedMeans` | internal/impact/indexer.go:95-130 | an update clears the edges at each changed path as given and adds those of the file it is resolved to, whatever the store held and whatever the order and repetition |
| `Impact.ReindexMatchesFullIff` | internal/impact/indexer.go:95-130 | for any list of changed paths, clean or not, the updated graph is the new tree's full graph exactly when every file agrees: unmeant files contribute the same, files meant under another name have lost no edge, and meant files outside the walk contribute nothing |
| `Impact.ReindexMatchesFull` | internal/impact/indexer.go:95-130 | naming at least the changed visited Go files, and meaning nothing that exists outside the walk, makes an update a full build |
| `Impact.OthersUntouched` | internal/impact/indexer.go:95-118 | edges of other files are neither added nor removed |
| `Impact.DeletedHasNoEdges` | internal/impact/indexer.go:115-122 | a deleted or no longer parsing file keeps no edge |
| `Impact.UncleanPathKeepsStaleEdges` | internal/impact/indexer.go:100-124 | a dropped import stays in the graph when the change is reported as "./a.go" and goes when it is reported as "a.go" |
| `Impact.FullBuildRepairsIff` | internal/impact/indexer.go:46-92 | a build of the new tree over the old tree's graph is the new tree's graph exactly when every visited file's old edges are among its new ones |
| `Impact.FullBuildKeepsADroppedImport` | internal/impact/indexer.go:46-92 | for a file that drops an import of its module it is not |
| `ImpactIndexer.Graph.DeleteNodeEdges` | internal/impact/store.go:87-90 | every edge at the node goes, in either direction, and no other |
| `ImpactIndexer.Graph.EdgesTo` | internal/impact/store.go:98-100 | the sources of the edges of a kind into a node |
| `ImpactIndexer.Graph.EdgesFrom` | internal/impact/store.go:93-95 | the targets of the edges of a kind out of a node |
| `ImpactIndexer.Graph.UpsertNode` | internal/impact/store.go:30-53 | adds the node once and nothing else |
| `ImpactIndexer.Graph.UpsertEdge` | internal/impact/store.go:56-67 | adds the edge once, between stored nodes |
| `ImpactIndexer.IndexFile` | internal/impact/indexer.go:132-170 | adds exactly the file's nodes and edges: containment, tests, and imports inside the module |
| `ImpactIndexer.IndexProject` | internal/impact/indexer.go:48-92 | adds the whole tree's graph, in any walk order, and counts the files indexed |
| `ImpactIndexer.UpdateFile` | internal/impact/indexer.go:97-124 | one changed file: its edges cleared, and its nodes and edges added again if it exists and parses |
| `ImpactIndexer.Reindex` | internal/impact/indexer.go:95-130 | the nodes and edges after all changed files, in order; no node is removed and every edge joins stored nodes |
| `ImpactAnalysis.Analyze` | internal/impact/service.go:34-128 | the nested loops collect exactly the graph's affected packages, dependents and tests; on a graph that stores every changed path validation is broadened exactly without an index state or when the indexed and the asked revision are known and differ, and otherwise always, for the first reason there is |
| `ImpactAnalysis.CollectTests` | internal/impact/service.go:130-144 | the test files in the affected packages |
| `ImpactAnalysis.ThresholdNeverDecides` | internal/impact/service.go:146-161 | on a present graph that covers every path the uncertainty stays under the threshold |
| `ImpactAnalysis.RelatedTestsMean` | internal/impact/service.go:55-104 | on a tree's graph the related tests are exactly the indexed tests in a changed file's package or in a package that imports one |
| `ImpactLaws.PackageIs` | internal/impact/indexer.go:184-190 | a file's package is the module path and the names of the file's directories |
| `ImpactLaws.VisitedIff` | internal/impact/indexer.go:58-75 | the walk visits exactly the Go files none of whose directories is skipped |
| `ImpactLaws.ContainedIn` | internal/impact/indexer.go:132-162 | the package of its directories, and no other, contains an indexed file; a test file tests that package and no other |
| `ImpactLaws.ImportsOf` | internal/impact/indexer.go:154-168 | an indexed file imports exactly the packages it names whose paths start with the module's |
| `ImpactLaws.NodesAre` | internal/impact/indexer.go:132-170 | the nodes are the indexed files, their packages and the packages they import |
| `ImpactLaws.WithoutModule` | internal/impact/indexer.go:132-170 | without a module path the nodes are the indexed files and there is no edge |
| `ImpactLaws.DependentsAre` | internal/impact/service.go:66-96 | the dependents are exactly the files that import the module path and directory of an indexed changed file |
| `ImpactLaws.AffectedAre` | internal/impact/service.go:66-96 | the affected packages are those of the directories of indexed changed files and of files that import one |
| `ImpactLaws.RelatedTestsAre` | internal/impact/service.go:66-144 | the related tests are exactly the indexed test files in the directory of an indexed changed file, or of a file that imports that directory's package |
| `Validation.StepOnlyUp` | internal/validation/service.go:164-198 | recording a run changes no state; recording evidence moves its own criterion up and no other |
| `Validation.StatesOnlyMoveUp` | internal/validation/service.go:48-198 | over every run of the two logs a criterion's state only moves up |
| `Validation.BlockedStaysBlocked` | internal/validation/service.go:164-198 | a blocked criterion stays blocked until it is waived |
| `Validation.ValidatedMeans` | internal/validation/service.go:134-198 | a criterion is never claimed, and validated only with a passing run of this same task and no failure or waiver |
| `Validation.StateMeans` | internal/validation/service.go:137-198 | the state read off the records: waived exactly with the user's waiver; otherwise blocked exactly with a failed or blocked run of the task attached; otherwise validated exactly with a passed one; otherwise partial exactly with any evidence |
| `Validation.WaiverMeans` | internal/validation/service.go:126-132 | a criterion becomes waived exactly by the user's waiver for it |
| `Validation.SkippedChangesNothing` | internal/validation/service.go:72-90 | a denied or cancelled command leaves every state of every task unchanged |
| `Validation.FreshRunMeans` | internal/validation/service.go:92-99 | a pass validates and a failure blocks exactly the intent's criteria, short of what outranks it |
| `Validation.EndingSettles` | internal/validation/service.go:72-100 | the states after a finished call that reused nothing, from how its command ended: exit code 0 validates each of its criteria not blocked or waived, a runner error or another code blocks each not waived, a denial or cancellation changes nothing |
| `Validation.CachedValidates` | internal/validation/service.go:51-58 | a reused run makes a criterion newly validated only if it is the call's own and the run passed for the same task, command and known fingerprint |
| `Validation.WithEvidenceIs` | internal/validation/service.go:114-124 | attaching a run appends one piece of evidence a criterion, in their order, and records no run |
| `Validation.CachedRunValidatesIff` | internal/validation/service.go:51-58 | a cached pass validates exactly when the cached run is this task's own, and is partial evidence otherwise |
| `Validation.LostEvidenceChangesNothing` | internal/validation/service.go:102-124 | if evidence writes fail from the k-th criterion on, those criteria keep their state, a validated one included |
| `Validation.FreshIsAllowed` | internal/validation/service.go:48-100 | a call appends only fresh runs and evidence of recorded runs |
| `Validation.DeriveState` | internal/validation/service.go:164-198 | the flags and the switch give the state the evidence means; the default case is never taken |
| `Validation.Service.CachedPass` | internal/validation/store.go:43-61 | the newest run recorded as passed with this command and this known fingerprint, if there is one |
| `Validation.Service.AttachEvidence` | internal/validation/service.go:114-124 | one write per criterion in order, up to the first that fails |
| `Validation.Service.RunFresh` | internal/validation/service.go:82-100 | records the run and, unless it was skipped, its evidence, up to the first write that fails |
| `Validation.Service.RunIntent` | internal/validation/service.go:48-100 | reuses a pass exactly when there is one, otherwise records a run; the states read afterwards follow from how the command ended, and no call, failing writes included, validates a criterion but its own by exit code 0 or by a reused pass of the task |
| `Validation.Service.WaiveCriterion` | internal/validation/service.go:127-132 | appends the user's waiver |
| `Validation.Service.ProofOfDone` | internal/validation/service.go:137-162 | the maps built from the logs give each asked criterion its state |
| `Profile.SortSorts` | internal/profile/effective.go:60-61 | layers come out in ascending precedence |
| `Profile.SortIsStable` | internal/profile/effective.go:60-61 | layers of equal precedence keep their order |
| `Profile.SortIgnoresOrder` | internal/profile/effective.go:60-61 | with distinct precedences the order the layers come in makes no difference |
| `Profile.MergeMeans` | internal/profile/effective.go:55-111 | for each type and key the compiled list has exactly one entry if some layer contributes to it and none otherwise: the last contribution wins with all its fields, the others are its overrides in order, and conflict says whether one had another value |
| `Profile.OneEntryEach` | internal/profile/effective.go:73-111 | no type and key has two entries in the compiled list |
| `Profile.ListIsSorted` | internal/profile/effective.go:106-110 | the compiled list is in the order of its joined keys |
| `Profile.EntriesAreConserved` | internal/profile/effective.go:71-104 | every contributed entry is a winner or an override, none twice, and the key order lists each winner once |
| `Profile.LayerOrderDoesNotMatter` | internal/profile/effective.go:59-114 | with distinct precedences the compiled profile does not depend on layer order |
| `Profile.EqualPrecedenceDependsOnOrder` | internal/profile/effective.go:59-97 | with equal precedences the later layer wins |
| `Profile.HighestPrecedenceWins` | internal/profile/effective.go:55-111 | a type and key has an entry exactly if some layer contributes one, and it is the last entry of a layer with the highest precedence of those that do |
| `Profile.Compile` | internal/profile/effective.go:59-111 | the nested loops over the sorted layers, and the loop over the sorted keys, compute that list |
| `Profile.JoinedIsUniqueIff` | internal/profile/effective.go:74 | the joined keys of a set of types never collide, whatever the keys hold, exactly when no type goes on behind another type and the separator |
| `Profile.KindsAreFree` | internal/profile/profile.go:8-20 | the types the program defines never collide in the merge or in the diff |
| `Profile.DiffEffective` | internal/profile/effective.go:204-232 | the two loops classify every key of the two indexes as added, removed or changed |
| `Profile.DiffMeans` | internal/profile/effective.go:204-232 | the classification accounts for every difference, is empty exactly for equal indexes, and reverses with its arguments |
| `Profile.DiffByPair` | internal/profile/effective.go:202-232 | for lists with one entry a pair: added or removed exactly when only one list has the type and key, changed exactly when both have it with different values |
| `LspFraming.DecimalValue` | internal/lsp/transport.go:28 | the printed length reads back as itself |
| `LspFraming.FrameText` | internal/lsp/transport.go:27-36 | a frame is, to the letter, "Content-Length: ", the length in decimal without leading zeros, two line ends and the data |
| `LspFraming.ScansBack` | internal/lsp/transport.go:61-66 | the scanner reads back the printed length |
| `LspFraming.ScanReads` | internal/lsp/transport.go:61 | the scanner skips white space, takes an optional sign and the digits that follow, and gives their number exactly if it fits 64 bits, whatever comes after |
| `LspFraming.ScanRefuses` | internal/lsp/transport.go:61-64 | without a digit there it gives an error |
| `LspFraming.IgnoredSteps` | internal/lsp/transport.go:46-67 | ignorable header lines change nothing |
| `LspFraming.FrameReadsBack` | internal/lsp/transport.go:41-90 | a message with any ignorable headers on either side of its length is read back, whatever its bytes, up to its last byte, exactly when a buffer can be made for it, and panics otherwise |
| `LspFraming.StreamReadsBack` | internal/lsp/transport.go:16-90 | if a buffer can be made for each message, reading as often as was written gives the payloads in order and consumes every byte |
| `LspFraming.CutFrameFails` | internal/lsp/transport.go:41-80 | a frame cut short anywhere is never a message: an error, or still the panic if no buffer can be made for it and its header part is whole |
| `LspFraming.DispatchedAreWritten` | internal/lsp/transport.go:16-106 | if a buffer can be made for each message, a client dispatches what was written, in order, up to the first content that does not decode |
| `LspFraming.UnrecognisedLengthDesynchronises` | internal/lsp/transport.go:61-87 | without a recognised length the content is empty; if that does not decode, the caller gets an error with the payload left in the input, and nothing is dispatched |
| `LspFraming.PanicsIff` | internal/lsp/transport.go:61-76 | for any header lines, then a blank one: reading panics exactly when every length among them is a number and the last of them is negative or above the largest buffer |
| `LspFraming.HeaderPartOrError` | internal/lsp/transport.go:46-49 | an input that does not begin with header lines and a blank one is an error |
| `LspFraming.NegativeLengthPanics` | internal/lsp/transport.go:61-76 | a header part with a negative length, such as -1, panics whatever follows |
| `LspFraming.LongLengthPanics` | internal/lsp/transport.go:61-76 | a header part with a length above the largest buffer panics, however short the rest of the input |
| `LspFraming.Pipe.WriteMessage` | internal/lsp/transport.go:17-38 | appends exactly one frame |
| `LspFraming.Pipe.ReadString` | internal/lsp/transport.go:46-49 | takes the input up to and with the next line feed |
| `LspFraming.Pipe.ReadMessage` | internal/lsp/transport.go:41-90 | the header loop, the content read and the decoding give the specified reading and leave what follows the content |

## Left out

- PatchCommit: the file a path names is a parameter, fixed during a commit; creating parent directories, symbolic links that change and file modes are not modelled.
- Text is modelled as characters, one per code point; invalid UTF-8 in patches and files, and byte offsets inside characters, are not. In the prompt compilers a character stands for a byte.
- Error messages: errors are values that carry what the messages report; their wording is not modelled.
- Go's slice growth: an append without room may or may not copy, whatever the runtime chooses; only what it guarantees is used.
- Floating point: statistics and uncertainty are exact reals; rounding and the wording of verdicts are not modelled.
- The content-addressed pages, the manifest, the section headings' wording and the stable prefix id of the prompt compilers, and the JSON of every record.
- SHA-256 of commands and contents: contents are compared directly, which assumes there are no collisions.
- The database: tables are maps, sets and append-only sequences with the stated keys; transactions and migrations are not modelled, and statements fail only where a failure is a parameter.
- StreamedWrites.CoalescingRefinesEager: is stated for writes that succeed; StreamedWrites.FailedFlushLosesIff says what one failing flush loses. Publishing to subscribers is not part of this model.
- Permissions: description and parameters of a request, the computation of its directory from its path, and how answers reach the service; a request's number stands for its fresh id.
- Broker: fairness of the lock and the unused limit on stored events.
- Dashboard: HTTP, authorisation, redaction, snapshots and the text of events.
- Impact: one project's rows, identified by node type and stable key; source revisions, weights and the parsing of Go files and of go.mod are parameters or absent. Roots are absolute slash paths without symbolic links.
- ImpactIndexer.IndexProject: does not model the index state writes and failing stores, because both only report errors and add no edge.
- ImpactIndexer.Reindex: does not model the index state write and failing stores, for the same reason.
- ImpactAnalysis.Analyze: does not model the risk level, the sorting of the report and the reason text of each test, because they are computed from the reported sets alone.
- SeriesVerdict.CompareSeries: does not model the wording of the verdict and the turn statistics, because the wording repeats the conclusion and turns enter no decision.
- Prompt.CompileCompat: does not model the manifest, pages, tool set and prefix id, because they are hashes and copies of what is sent.
- Prompt.CompileDedup: does not model the manifest, pages, tool set and prefix id, because they are hashes and copies of what is sent.
- Permissions.OneMorePromptCanHappen: is about any state with a request past its check; PermissionRuns.GrantedKeyCanStillPrompt is the run from the start.
- Permissions.LateReplyBlocksForEver: is about any state with a full channel behind an answered request; PermissionRuns.ThreeAnswersCanStick is the run from the start.
- Validation: run times, exit codes beyond zero or not, events, and the list of successful commands.
- Profile.Compile: does not model the manifest, its token estimate and the version hash, which are renderings of the list and of the layers.
- Profile.DiffEffective: gives sets; the final sort of the three lists is not modelled.
- LspFraming: what makes a content decode is a parameter; concurrent writers, non-ASCII white space in header lines, and buffers that fit the limit but not the memory left at that moment.
- Shell, git, process, file-watching, rendering and terminal code, which would add only calls into code outside the repository or easy members.
