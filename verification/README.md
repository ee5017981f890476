# Verified models of the ns-3 tooling and examples

Dafny models of the algorithmic parts of the repository, and proofs about them:

* the parallel test dispatcher of `test.py` (`TestJobs`, `DispatchProtocol`, `DispatchInvariant`,
  `DispatchRuns`, `TestSummary`, `DispatchRunner`);
* the gathering of configuration paths in `utils/print-introspected-doxygen.cc` (`TypeGraph`,
  `SimplePaths`, `RepeatedPaths`, `StaticInformation`);
* the whitespace and tab fixers of `utils/check-style-clang-format.py` (`StyleText`, `StyleRules`,
  `StyleCheck`);
* the statistics and the event loop of `utils/bench-scheduler.cc` (`Welford`, `EventBench`);
* the searches, the legend and the axis of `utils/grid.py` (`StableSort`, `Timeline`,
  `Legend`, `Scale`);
* the byte-stream writer of `examples/tcp/tcp-large-transfer.cc` (`LargeTransfer`);
* Jain's index in `examples/tcp/dctcp-example.cc` (`Fairness`).

`dafny verify dfyconfig.toml` checks everything.

## How the models are built

**Dispatcher.** `DispatchProtocol` is a transition system: the main thread dispatches, sends one
sentinel per worker, collects and joins; each worker takes a job, looks at its break flag, then at
the exit flag, then at its skip flag, launches the command and puts the job into the output queue;
an interrupt may set the exit flag between any two steps. A job is the record of the program plus
its origin, on which no branch depends. The return code of each job is arbitrary. `DispatchInvariant`
holds what every step keeps, `DispatchRuns` what follows for whole runs, and `DispatchRunner` the
same threads as methods that update the shared queues, run under an arbitrary scheduler. The break
flag has two meanings, sentinel on input and interrupted job on output; that they never mix is
`OutputHoldsRealJobs`.

**Configuration paths.** The registered types form a finite labelled graph, possibly cyclic.
`TypeGraph` says what an edge is and which walks are simple, without reference to the recursion.
`SimplePaths` shows that the recursion lists exactly these, once each and in depth-first order,
`RepeatedPaths` when two of them are printed alike, and `StaticInformation.Gatherer` is the
recursion over the two member vectors.

**Style fixers.** A file is its content; reading splits it into lines with universal newlines and
writing joins them, so "check again" means reading back what was written. The tab fix can create a
guard line that was none (`GuardMadeIff` says when); `FixNeverEnables` is the simulation between the
two passes that makes the second pass clean all the same.

**Time and sockets.** The simulator is a multiset of pending event times; the random stream is an
arbitrary sequence of non-negative delays. The socket reports arbitrary space and accepts or
refuses arbitrarily, differently in each epoch between callbacks and with each send.

Where the code and its comments differ the model follows the code. The comment of `Uniquefy` says
that the container is modified in place, but the container is passed by value, so the recorded
pairs keep their duplicates. `RecordsUniqueIff` says when there are none: no root yields a pair
twice if and only if no two types are linked twice. The program does link two types twice, by the
aggregation declared at lines 531 and 533 of `utils/print-introspected-doxygen.cc`, and by
`RepeatedAggregationRepeatsPath` it is recorded twice from every root that reaches one of the two
types without the other. The progress line of `test.py` leaves valgrind errors out of its numerator
(`ProgressBound`). `get_ranges` and `get_events` return what overlaps the window only under the
conditions of `RangesBetweenExactIff` and `EventsCompleteIff`; `InexactWindows` and
`SimultaneousEventsLost` are windows that fail them. Both lists are sorted before any query; the
program hands its comparison function to `sort` by position, which Python 3 does not accept, and the
model sorts stably in the order of that function. With Python 3 division the axis of an extent of at
most ten fails in its drawing, at an extent of one before the ticks and otherwise behind them
(`DrawAxis`, `ShortAxisFails`). The fairness index can print infinity, or a wrong number, by
wrap-around alone (`InfiniteIndex`, `WrongIndex`); `PrintedIsJainIff` is the exact condition.

## Model

| member | source | states |
|---|---|---|
| DispatchInvariant.InitInv | test.py:1382-1421 | the invariant holds when the queues are empty and the workers started |
| DispatchInvariant.StepFifo | test.py:978-986 | the input queue is always what is left of the jobs and then the sentinels that were put into it, first in first out |
| DispatchInvariant.StepShape | test.py:978-1046 | every job a worker holds or hands back is a fresh job, its result, or its interrupted form once the exit flag is set |
| DispatchInvariant.StepWorkerPlaces | test.py:978-1046 | a worker step moves one copy of a job between queue, hands and output, a launch being recorded, and loses or duplicates none |
| DispatchInvariant.StepMainPlaces | test.py:1688-1711 | a step of the main thread adds a copy of a job only by dispatching it and loses none |
| DispatchInvariant.StepSentinels | test.py:980-986 | the sentinels taken are exactly what left the queue after the last job, and each belongs to one worker |
| DispatchInvariant.StepInv | test.py:978-1046 | every step of any thread, and an interrupt, keeps the whole invariant |
| DispatchInvariant.RunInv | test.py:978-1046 | so does every run |
| DispatchRuns.ExactlyOnePlace | test.py:1472-1474 | in every reachable state each dispatched job is in exactly one of input queue, one worker, output queue, collected |
| DispatchRuns.LaunchedAtMostOnce | test.py:1010-1033 | no schedule executes the command of a job twice, or at all if the job is to be skipped |
| DispatchRuns.SentinelsConserved | test.py:1688-1691 | queued sentinels plus sentinels taken by workers are the sentinels sent |
| DispatchRuns.NoExitBeforeDrained | test.py:985-986 | no worker exits while a real job is still in the input queue |
| DispatchRuns.OutputHoldsRealJobs | test.py:992-995 | no sentinel reaches the output queue; a collected job with the break flag is a real job handed back by an interrupt, any other is its undisturbed result |
| DispatchRuns.StepDecreases | test.py:978-1046 | every step lowers a measure of the work left, on any schedule |
| DispatchRuns.RunsAreBounded | test.py:1688-1711 | a run takes at most 7 steps per job and 8 per worker plus 5, interrupts included |
| DispatchRuns.MissingJobIsQueued | test.py:1710-1711 | while a result is missing and no worker and no output queue has it, the job is in the input queue |
| DispatchRuns.Progress | test.py:1688-1711 | deadlock freedom: with a worker or without jobs, some thread can step in every state before the end |
| DispatchRuns.CanFinish | test.py:1849-1850 | from every state satisfying the invariant the threads can reach the end without an interrupt |
| DispatchRuns.StuckMeansDone | test.py:1849-1850 | a reachable state where nothing but an interrupt is possible is the final one |
| DispatchRuns.CompletesIff | test.py:1407-1421 | the run can complete if and only if there is a worker or no job |
| DispatchRuns.FinalState | test.py:1849-1850 | at the end both queues are empty, every worker has exited and each job was collected exactly once |
| DispatchRuns.FinalLaunches | test.py:998-1046 | at the end a command was executed once if its job came back neither skipped nor interrupted, else never |
| DispatchRuns.UninterruptedIsSequential | test.py:1710-1711 | without an interrupt every schedule collects a permutation of the results of a single thread |
| DispatchRuns.LaunchesAfterExit | test.py:992-1035 | after the exit flag is set a worker launches at most one more command, and only if it had passed the check |
| DispatchRuns.InterruptDecides | test.py:985-1046 | in a run that ends after an interrupt a job comes back undisturbed exactly if it had got past the check of the exit flag before, and handed back otherwise, also if it is to be skipped |
| DispatchRuns.CompleteRun | test.py:1688-1850 | every complete run, interrupted or not, is bounded, leaves nothing behind and collects each job once |
| TestSummary.Tally.Classify | test.py:1720-1744 | a skipped job is counted and listed as skipped with its reason; else 0 is passed, 1 failed, 2 a valgrind error and any other code a crash, listed by name; the other counters and lists stay |
| TestSummary.Tally.Record | test.py:1711-1746 | after each collected job every counter and name list is that of the jobs seen, and the progress shown is theirs |
| TestSummary.Tally.ExitCode | test.py:1933-1936 | the return value is 0 exactly when every collected job passed or was skipped |
| TestSummary.CountsAddUp | test.py:1703-1744 | the five counters and the interrupted jobs add up to the jobs collected |
| TestSummary.ProgressBound | test.py:1746 | the progress never exceeds the total and lacks just valgrind errors and interrupted jobs |
| TestSummary.ExitCodeMeaning | test.py:1933-1936 | passed plus skipped equals the number collected if and only if each passed or was skipped |
| TestSummary.OrderIrrelevant | test.py:1869-1880 | counts and name lists up to order depend only on which jobs were collected, not on the schedule |
| DispatchRunner.TestRun.MainStep | test.py:1440-1850 | the main thread updates queues, counters and lists as the transition system says |
| DispatchRunner.TestRun.WorkerStep | test.py:978-1046 | a worker updates queues and its job as the transition system says |
| DispatchRunner.TestRun.Interrupt | test.py:573-576 | the handler sets the exit flag and nothing else |
| DispatchRunner.ActionsAreThreadSteps | test.py:978-1046 | every enabled action is the next step of the thread it belongs to, so the scheduler choice is the only freedom |
| DispatchRunner.ScheduleOne | test.py:978-1046 | some thread can be chosen, and whichever is chosen takes its step |
| DispatchRunner.CodeMeaning | test.py:1933-1936 | all collected jobs passed or were skipped if and only if every test is to be skipped or succeeds and no job was handed back by an interrupt |
| DispatchRunner.SummaryWithoutInterrupt | test.py:1703-1744 | without an interrupt the counts and name lists are those of the sequential run |
| DispatchRunner.ReportedCounts | test.py:1720-1744 | these counts are the numbers of tests not to be skipped whose process returns 0, 1, 2 or another code, and of those to be skipped |
| DispatchRunner.ReportedNames | test.py:1720-1744 | every text is listed under a verdict as often as there are tests of that name and return code, for skipped ones name and reason |
| DispatchRunner.RunTests | test.py:1688-1936 | under any scheduler the run terminates and collects each job once, with the fields of its test and its return code or, only after an interrupt, handed back; it returns 0 if and only if every test is good and none was handed back; without an interrupt every counter and list is that of the tests by their return codes |
| TypeGraph.EdgesMeaning | utils/print-introspected-doxygen.cc:421-494 | an edge is a pointer attribute not to plain Object, a container attribute, a child, or an aggregation in either direction, and nothing else |
| TypeGraph.AttributesInOrder | utils/print-introspected-doxygen.cc:421-462 | attribute edges come in the order of the attributes |
| TypeGraph.ChildrenInOrder | utils/print-introspected-doxygen.cc:463-475 | child edges ascend in the order of registration |
| TypeGraph.AggregatesInOrder | utils/print-introspected-doxygen.cc:476-496 | aggregation edges come in the order of declaration |
| TypeGraph.EdgesInOrder | utils/print-introspected-doxygen.cc:421-496 | attribute edges come first, aggregation edges last, and between them the children ascend |
| TypeGraph.SimpleStep | utils/print-introspected-doxygen.cc:416-420 | a walk is simple exactly if its first type is not avoided and the rest is simple avoiding that type too |
| SimplePaths.VisitShrinks | utils/print-introspected-doxygen.cc:443-446 | pushing an unvisited type leaves fewer unvisited types, which bounds the recursion on cyclic graphs |
| SimplePaths.WalksAreSimple | utils/print-introspected-doxygen.cc:412-497 | the walks behind the recursion are exactly the simple walks |
| SimplePaths.WalksOrdered | utils/print-introspected-doxygen.cc:412-497 | they come in depth-first order, hence each once |
| SimplePaths.GatheredMatchesWalks | utils/print-introspected-doxygen.cc:420-497 | each recorded pair is the end type and the joined labels of its walk |
| SimplePaths.PathStringAppend | utils/print-introspected-doxygen.cc:325-335 | the text of a path grows to the right: nothing for no label, a slash and the label for each further one |
| SimplePaths.RecordsBegin | utils/print-introspected-doxygen.cc:412-447 | the first record below a path is the path itself, and the text of every other begins with it |
| SimplePaths.RecordsAreSimplePaths | utils/print-introspected-doxygen.cc:412-497 | from a root the records are those of the simple paths, each once, in depth-first order |
| SimplePaths.PathsTellApartIff | utils/print-introspected-doxygen.cc:412-497 | label sequences determine simple paths if and only if no type has two edges to other types with the same label |
| SimplePaths.RecordedIff | utils/print-introspected-doxygen.cc:337-342 | a pair is recorded if and only if some simple path ends in that type with that text |
| RepeatedPaths.PathStringInjective | utils/print-introspected-doxygen.cc:325-335 | the joined text determines the labels, for names without slashes and container suffixes |
| RepeatedPaths.TextsTellApartIff | utils/print-introspected-doxygen.cc:325-342 | the printed text determines the simple path, whatever its end, under the same condition as its labels |
| RepeatedPaths.ExtendWalk | utils/print-introspected-doxygen.cc:443-447 | an edge to a type off the stack continues a simple path |
| RepeatedPaths.ExtendedText | utils/print-introspected-doxygen.cc:325-342 | the root is recorded with the empty text, and a simple path continued by an edge with its own text, a slash and the label of the edge |
| RepeatedPaths.FirstDifference | utils/print-introspected-doxygen.cc:412-497 | two simple paths with the same labels part at two equal edges |
| RepeatedPaths.RepeatsIff | utils/print-introspected-doxygen.cc:404-410 | if a label determines its target, a root yields a pair twice if and only if a simple path from it ends in a type with two equal edges to a type not on the path |
| RepeatedPaths.NoRootRepeatsIff | utils/print-introspected-doxygen.cc:387-410 | no root yields a pair twice if and only if no type has two equal edges to another type |
| RepeatedPaths.EdgeCount | utils/print-introspected-doxygen.cc:421-496 | how often an edge leaves a type: by attribute at most once, by name once for being a child and once for each aggregation in either direction |
| RepeatedPaths.RegistryLabels | utils/print-introspected-doxygen.cc:421-496 | with unique, slash-free names a label determines the type it leads to |
| RepeatedPaths.RecordsUniqueIff | utils/print-introspected-doxygen.cc:387-410 | with such names no root yields a pair twice if and only if no two types are linked by name more than once |
| RepeatedPaths.RepeatedAggregationRepeatsPath | utils/print-introspected-doxygen.cc:531-555 | an aggregation declared twice is recorded twice, with the same text, from every root that reaches one of its types by a simple path avoiding the other |
| RepeatedPaths.ShareIff | utils/print-introspected-doxygen.cc:553-556 | two roots record a common pair if and only if simple paths from them have the same labels and the same end |
| RepeatedPaths.AllRootsRepeatIff | utils/print-introspected-doxygen.cc:553-556 | the pairs recorded from a list of roots hold a pair twice if and only if a simple path from one of them forks into two equal edges, or simple paths from two of them meet |
| RepeatedPaths.AllRecordsUniqueIff | utils/print-introspected-doxygen.cc:553-556 | where no two types are linked twice, the pairs of all roots are unique if and only if no simple paths from two roots meet |
| StaticInformation.LookupFrom | utils/print-introspected-doxygen.cc:297-310 | a name resolves to the first type registered under it, or to none if there is none |
| StaticInformation.PathsOfMeaning | utils/print-introspected-doxygen.cc:358-371 | the texts reported for a type are those recorded with it |
| StaticInformation.Gatherer.RecordAggregationInfo | utils/print-introspected-doxygen.cc:293-313 | an aggregation is added if both names resolve, else the first name that does not is noted |
| StaticInformation.Gatherer.GetCurrentPath | utils/print-introspected-doxygen.cc:325-335 | empty for an empty stack; around each label the text is that of the labels below it, a slash, the label, and the text of those above it |
| StaticInformation.Gatherer.RecordOutput | utils/print-introspected-doxygen.cc:337-342 | the pair of type and current path is appended |
| StaticInformation.Gatherer.HasAlreadyBeenProcessed | utils/print-introspected-doxygen.cc:344-356 | whether the type is on the stack |
| StaticInformation.Gatherer.Get | utils/print-introspected-doxygen.cc:358-371 | the paths recorded for a type, in order |
| StaticInformation.Gatherer.Follow | utils/print-introspected-doxygen.cc:443-447 | push, recurse and pop leave both stacks as they were and add the records of that edge, whose texts all begin with the current one, a slash and the label |
| StaticInformation.Gatherer.FollowAttributes | utils/print-introspected-doxygen.cc:421-462 | the attribute loop adds the records of the attribute edges in order |
| StaticInformation.Gatherer.FollowChildren | utils/print-introspected-doxygen.cc:463-475 | the loop over registered types adds the records of the children |
| StaticInformation.Gatherer.FollowAggregates | utils/print-introspected-doxygen.cc:476-496 | the aggregation loop adds the records of both directions |
| StaticInformation.Gatherer.DoGather | utils/print-introspected-doxygen.cc:412-497 | terminates, never has a type twice on the stack, restores both vectors and appends the records of the simple paths |
| StaticInformation.Gatherer.Gather | utils/print-introspected-doxygen.cc:404-409 | from empty stacks to empty stacks, appending the records of the root, duplicates included |
| StaticInformation.Gatherer.GatherRoots | utils/print-introspected-doxygen.cc:553-556 | the records of all roots, one after the other |
| StaticInformation.ConfigurationPaths | utils/print-introspected-doxygen.cc:358-371 | a text is reported for a type as often as there are simple paths to it printed like that |
| StyleText.RStrip | utils/check-style-clang-format.py:524 | the prefix left does not end in white space and only white space was cut |
| StyleText.SpaceList | utils/check-style-clang-format.py:524 | white space is just these 29 characters, none of them printable ASCII |
| StyleText.LStrip | utils/check-style-clang-format.py:613 | the suffix left does not begin with white space and only white space was cut |
| StyleText.StripUnique | utils/check-style-clang-format.py:613 | stripping finds the middle between any white space around it |
| StyleText.StripExpand | utils/check-style-clang-format.py:613-632 | stripping an expanded line gives the expansion of the stripped line from the column of its text, which is the stripped line itself if that has no tab |
| StyleText.TabStop | utils/check-style-clang-format.py:128 | the next multiple of the tab size |
| StyleText.ExpandChars | utils/check-style-clang-format.py:632 | expansion leaves no tab and adds only blanks |
| StyleText.ExpandIdentity | utils/check-style-clang-format.py:626-632 | a line is unchanged by expansion if and only if it has no tab |
| StyleText.ExpandKeepsInk | utils/check-style-clang-format.py:632 | expansion keeps everything but blanks and tabs, in order |
| StyleText.ExpandKeepsColumns | utils/check-style-clang-format.py:632 | every point of a line stays at its display column |
| StyleText.LinesAreOk | utils/check-style-clang-format.py:519-520 | what is read has at most one newline per line, at its end, and only the last line may lack it |
| StyleText.TranslateLineEnd | utils/check-style-clang-format.py:519-520 | each of the three line ends is read as one newline, and text without carriage returns as it is |
| StyleText.ReadThenJoin | utils/check-style-clang-format.py:519-520 | the lines read, joined, are the translated text |
| StyleText.WriteThenRead | utils/check-style-clang-format.py:535-538 | lines written are read back unchanged |
| StyleRules.CleanLineMeaning | utils/check-style-clang-format.py:523-526 | a line passes the whitespace check if and only if it is terminated and its text does not end in white space |
| StyleRules.TrimmedLinesClean | utils/check-style-clang-format.py:523-533 | trimming twice is trimming once, and trimmed lines pass |
| StyleRules.EnabledMeaning | utils/check-style-clang-format.py:615-618 | formatting is off exactly after an off guard with no on guard since |
| StyleRules.CheckedMeaning | utils/check-style-clang-format.py:612-622 | a line is looked at if and only if it is a guard or no off guard without a later on guard stands before it |
| StyleRules.TrimKeepsPrintable | utils/check-style-clang-format.py:523-533 | trimming keeps the printable ASCII characters of every line |
| StyleRules.TrimKeepsInkIff | utils/check-style-clang-format.py:523-533 | trimming keeps everything but blanks and tabs of a line if and only if only such stand behind its text |
| StyleRules.FormFeedLost | utils/check-style-clang-format.py:523-533 | a form feed at the end of a line is cut off |
| StyleRules.FixNeverEnables | utils/check-style-clang-format.py:612-622 | guards created by the fix can only switch off: what the second pass looks at the first one looked at |
| StyleRules.GuardSurvives | utils/check-style-clang-format.py:613-618 | a guard stays the same guard when its tabs are expanded |
| StyleRules.ExpansionCanMakeGuard | utils/check-style-clang-format.py:59-60 | a line that is no guard can become one by expansion |
| StyleRules.ExpandReads | utils/check-style-clang-format.py:632 | a text expands to a given one with single blanks if and only if they agree but for tabs at columns 3 mod 4 in place of blanks |
| StyleRules.GuardMadeIff | utils/check-style-clang-format.py:59-60 | expansion makes a guard of a line that is none if and only if its text is the guard with one such tab in place of its first or last blank |
| StyleRules.ExpandedLinesClean | utils/check-style-clang-format.py:610-632 | after the tab fix a second check finds nothing and a second fix changes nothing |
| StyleRules.ExpandedLinesChange | utils/check-style-clang-format.py:625-632 | the fix changes the lines exactly when the check finds a tab |
| StyleRules.WhitespaceFixedIsClean | utils/check-style-clang-format.py:523-538 | the fixed file passes when read again, is a fixed point, and keeps its number of lines |
| StyleRules.TabsFixedIsClean | utils/check-style-clang-format.py:610-637 | the same for the tab fix |
| StyleRules.DisabledLinesUntouched | utils/check-style-clang-format.py:620-622 | lines between guards that are no guards come out identical |
| StyleRules.TabsFixedKeepsInk | utils/check-style-clang-format.py:632-637 | the tab fix keeps the visible text of every line of the file |
| StyleRules.TabsFixedKeepsWhitespaceClean | utils/check-style-clang-format.py:632-637 | the tab fix introduces no trailing white space |
| StyleRules.BothFixesClean | utils/check-style-clang-format.py:334-342 | fixing white space and then tabs leaves a file clean for both |
| StyleCheck.TrimLines | utils/check-style-clang-format.py:523-533 | the loop finds trailing white space exactly when some line has it, in both modes, and in fix mode trims every line |
| StyleCheck.ExpandLines | utils/check-style-clang-format.py:607-632 | the loop with its early break and its guard switch finds a tab exactly when some line that is a guard or not shielded by an off guard has one, and in fix mode expands just these |
| StyleCheck.SourceTree.CheckTrailingWhitespaceFile | utils/check-style-clang-format.py:507-540 | the verdict is in both modes whether some line differs from its stripped text and a newline; in fix mode every line read afterwards is that, and only a file that was not clean is written |
| StyleCheck.SourceTree.CheckTabsFile | utils/check-style-clang-format.py:595-639 | the verdict is in both modes whether some line holds a tab and is a guard or not shielded by an off guard; after a fix there is none, just these lines are expanded, and a file without an off guard has no tab left |
| StyleCheck.SourceTree.CheckTrailingWhitespace | utils/check-style-clang-format.py:457-504 | success exactly in fix mode or if all files are clean; the listed files are fixed and no others |
| StyleCheck.SourceTree.CheckTabs | utils/check-style-clang-format.py:546-592 | the same for tabs |
| StyleCheck.SourceTree.CheckFormattingFile | utils/check-style-clang-format.py:405-450 | the verdict is that of the formatter; only fix mode rewrites, and only a file that was not well formatted |
| StyleCheck.SourceTree.CheckFormatting | utils/check-style-clang-format.py:355-402 | success exactly in fix mode or if all files are well formatted; the listed files are formatted in order |
| StyleCheck.SourceTree.CheckStyle | utils/check-style-clang-format.py:300-349 | in check mode nothing is written and the status is 0 exactly when all is formatted and clean; in fix mode it is 0; then the listed files are clean for the last two checks whatever the formatter does, and formatted if the formatter is settled (`FormattingKeptIff`); fixing a formatted and clean tree changes nothing |
| StyleCheck.FixedFileIs | utils/check-style-clang-format.py:322-342 | each file gets just the fixes of the enabled lists it is on, in their order |
| StyleCheck.FixedTreeIsFormatted | utils/check-style-clang-format.py:326-342 | if what the formatter leaves behind is well formatted and the other fixes keep a well formatted text so, the listed files are formatted in the end |
| StyleCheck.FormattingKeptIff | utils/check-style-clang-format.py:326-342 | that is exactly what it takes for every tree, every file lists and every choice of checks |
| StyleCheck.FixedTreeIsClean | utils/check-style-clang-format.py:334-342 | whatever lists a file is on and whatever the formatter did, the tab fixer does not undo the white space fixer |
| Welford.ShiftCenter | utils/bench-scheduler.cc:358-362 | how the sum of squared deviations depends on its centre |
| Welford.WelfordStep | utils/bench-scheduler.cc:358-362 | the update of mean and second moment is exact for one more sample |
| Welford.DeviationsNonNegative | utils/bench-scheduler.cc:374-379 | the second moment is never negative and zero only for constant samples |
| Welford.MeanMinimizes | utils/bench-scheduler.cc:346-352 | no other centre than the mean gives a smaller second moment |
| Welford.FieldsOf | utils/bench-scheduler.cc:364-369 | the six fields make up a result |
| Welford.Accumulate | utils/bench-scheduler.cc:358-362 | the macro turns the two-pass values of the samples so far into those with one more |
| Welford.Log | utils/bench-scheduler.cc:331-384 | nothing for fewer than two runs; else for each of the six fields the average times the number of runs is the sum of that field, and the deviation the root of its mean squared deviation, which is not negative, although the first sample is used twice |
| EventBench.Bench.Schedule | utils/bench-scheduler.cc:144-148 | one event more, at the current time plus the next delay |
| EventBench.Bench.Cb | utils/bench-scheduler.cc:163-176 | with the executing event the population is complete before each callback, and stays so unless the total is reached, which stops the simulator |
| EventBench.TimesDetermined | utils/bench-scheduler.cc:144-176 | the delays of the stream determine every firing time: two runs that always fire the earliest event due agree |
| EventBench.FireOne | utils/bench-scheduler.cc:152-154 | firing the earliest pending event keeps the order of firings and the account of what was scheduled |
| EventBench.Bench.ExecuteNext | utils/bench-scheduler.cc:152-154 | the earliest pending event fires and is taken off, time does not go back, and its successor, if any, is put on the list |
| EventBench.Bench.Execute | utils/bench-scheduler.cc:152-154 | the loop ends after exactly one callback more than the total, or at once without events; the earliest event due has fired each time |
| EventBench.Bench.Run | utils/bench-scheduler.cc:133-161 | the reported counts; each firing is that of the earliest event due, which are the first delays of the stream and one further delay behind each firing but the last; what fired and what is left over are just these |
| Timeline.OverlappingIsSlice | utils/grid.py:131-147 | the ranges that overlap a window are one stretch of a sorted disjoint list |
| Timeline.HolderUnique | utils/grid.py:100-117 | at most one range holds a key |
| Timeline.RangesBetweenExactIff | utils/grid.py:138-147 | the query is exact with both ends covered; with one end covered it misses nothing and is exact iff nothing lies beyond the other end; with none covered it is exact iff both ends lie in one gap |
| Timeline.OneEndCovered | utils/grid.py:138-147 | with one end covered the query returns just the ranges that do not lie beyond that end, and nothing with none |
| Timeline.InexactWindows | utils/grid.py:138-147 | a window between the ranges misses one, and a window with one end covered gets one too many |
| Timeline.TimelineDataRange.Search | utils/grid.py:100-117 | what is found holds the key; on sorted disjoint ranges it is found if and only if it exists |
| Timeline.TimelineDataRange.GetRanges | utils/grid.py:131-147 | on sorted disjoint ranges the result is exactly the overlapping ranges with both ends covered, exactly those not beyond the covered end with one, so all overlapping ones, and nothing with none |
| Timeline.TimelineDataRange.GetRangesBounds | utils/grid.py:148-164 | the bounds delimit what the query returns |
| StableSort.SortPermutes | utils/grid.py:165-170 | sorting loses and adds nothing |
| StableSort.SortIsSorted | utils/grid.py:70-77 | the sorted list ascends |
| StableSort.SortIsStable | utils/grid.py:165-170 | elements that compare equal keep their order |
| StableSort.FilterSort | utils/grid.py:165-170 | selecting from the sorted list is sorting the selection |
| Timeline.SortMakesDisjoint | utils/grid.py:165-170 | disjoint ranges in any order are sorted and disjoint after the sort |
| Timeline.TimelineDataRange.Sort | utils/grid.py:165-170 | the ranges are sorted by start |
| Timeline.RangesOfFile | utils/grid.py:1608-1654 | for the disjoint ranges of a file in any order, the query is exactly the overlapping ones in order of start if both ends are covered by some range, and holds all of these if one end is |
| Timeline.WithinIsSlice | utils/grid.py:220-229 | the events of a window are one stretch of the list |
| Timeline.PositionMeaning | utils/grid.py:195-212 | on a sorted list the search ends at some event at the key, or at its place if there is none |
| Timeline.EventsCompleteIff | utils/grid.py:220-229 | on a sorted list the query returns the events of the window, and exactly when none is at its end but one follows that one, if and only if the searches found the first event at its start and the last one at its end |
| Timeline.EventsBetween | utils/grid.py:220-229 | that is so with at most one event at each end, whatever happens elsewhere |
| Timeline.InnerEvents | utils/grid.py:220-229 | no event strictly inside the window is lost, and none but the last returned is outside |
| Timeline.SimultaneousEventsLost | utils/grid.py:220-229 | of three events at one time a window at that time returns one |
| Timeline.TimelineEvent.Sort | utils/grid.py:240-245 | the events are sorted by time |
| Timeline.TimelineEvent.Search | utils/grid.py:195-212 | the position where the bisection ends; on a sorted list an event at the key if there is one, else its place |
| Timeline.TimelineEvent.GetEvents | utils/grid.py:220-229 | on sorted events complete if and only if the searches found the outermost events at the ends of the window, as with at most one event at each |
| Timeline.TimelineEvent.GetEventsBounds | utils/grid.py:230-239 | the bounds delimit what the query returns, each found at its end of the window |
| Timeline.WithinSorted | utils/grid.py:220-245 | the window of the sorted list is the sorted window of the file |
| Timeline.EventsOfFile | utils/grid.py:1625-1654 | for the events of a file in any order, with at most one at each end of the window, the query is those in the window, in order of time and then of the file, and at most one later event |
| Legend.PlacedBehind | utils/grid.py:535-547 | every placed box is left of the cursor on its row or above it |
| Legend.NoOverlap | utils/grid.py:566-585 | no two item boxes overlap |
| Legend.InsideHeight | utils/grid.py:546-548 | every box lies between the top padding and the computed height |
| Legend.TallestIsMaximum | utils/grid.py:539-540 | the height of the tallest item is a maximum |
| Legend.LineHeight | utils/grid.py:533-540 | the line height, never reset, is the height of the tallest item so far |
| Legend.HeightTightIff | utils/grid.py:546-548 | the computed height is the top of the last row plus the height of the tallest item of all; some box reaches it if and only if an item that tall is on the last row |
| Legend.InsideWidth | utils/grid.py:541-545 | a box passes the width only if it starts a row and fits into none |
| Legend.RowBreaks | utils/grid.py:541-545 | the next item follows on the same row exactly when it fits, else it starts a row that lies below by the height of the tallest item so far |
| Legend.TopLegendRenderer.Layout | utils/grid.py:523-548 | no box passes the height, which is the top of the last box plus the height of the tallest item |
| Legend.DrawnBoxes | utils/grid.py:566-585 | boxes hold swatch, text and three paddings; no two boxes and no two texts overlap; each box is right of the one before if it fits there, else at the start of a lower row |
| Legend.TopLegendRenderer.Draw | utils/grid.py:556-589 | the boxes drawn are the ones laid out, with room for their texts, which do not overlap and lie within the height |
| Legend.TopLegendRenderer.Show | utils/grid.py:507-589 | the legend drawn after a layout has disjoint boxes within a height that exceeds the top of the last one by the tallest item |
| Scale.MultipleGap | utils/grid.py:931-942 | multiples of the distance are at least that far apart |
| Scale.StepUnique | utils/grid.py:897-900 | an extent has only one step |
| Scale.StepIsOneIff | utils/grid.py:897-906 | the step is one exactly for an extent of at most ten, else a multiple of ten |
| Scale.FloorMultiple | utils/grid.py:930-931 | taking the remainder off a bound gives the largest multiple that is not above it |
| Scale.ScaleRenderer.Layout | utils/grid.py:897-908 | the distance is the power of ten that is at least a tenth of the extent and, unless one, below it; it is a tenth exactly for an extent of one |
| Scale.StepThrough | utils/grid.py:942-963 | the loop visits every multiple above the lower and up to the upper bound, and no other |
| Scale.ScaleRenderer.StepThroughBounds | utils/grid.py:929-963 | each drawing loop marks the multiples of its distance in the bounds, which need not be whole, ascending; it fails exactly for a distance below one |
| Scale.ScaleRenderer.Draw | utils/grid.py:925-966 | the ticks, then the smaller marks at a tenth of their distance, or where this fails |
| Scale.TickCount | utils/grid.py:897-942 | an extent of between k and m steps gets between k and m ticks |
| Scale.ScaleRenderer.DrawAxis | utils/grid.py:858-966 | drawing succeeds if and only if the extent is above ten, with one to ten ticks, ten to a hundred smaller marks and the ticks among these; it fails before the ticks exactly for an extent of one, and otherwise behind them |
| Scale.DrawingUnique | utils/grid.py:925-966 | the bounds determine the drawing and whether it fails |
| Scale.ShortAxisFails | utils/grid.py:956-960 | from 0 to 5 the ticks 1 to 5 are drawn and then the program fails |
| Scale.PositionsInside | utils/grid.py:944 | every tick is drawn inside the axis |
| Scale.PositionsProportional | utils/grid.py:944 | positions are proportional to the distance from the lower bound and keep the order of the values |
| LargeTransfer.BufferMatchesPattern | examples/tcp/tcp-large-transfer.cc:51-56 | a full buffer is a whole number of alphabets, so offsets continue the pattern |
| LargeTransfer.LettersRepeat | examples/tcp/tcp-large-transfer.cc:106-110 | the bytes are the codes of the alphabet, over and over |
| LargeTransfer.OfferIsLargest | examples/tcp/tcp-large-transfer.cc:226-230 | what is offered is the most that passes neither the buffer nor the transfer nor the space |
| LargeTransfer.ExtendPattern | examples/tcp/tcp-large-transfer.cc:226-241 | accepting bytes from the current offset extends the pattern by just these |
| LargeTransfer.Sender.constructor | examples/tcp/tcp-large-transfer.cc:106-110 | the buffer holds the repeated letters |
| LargeTransfer.Sender.WriteUntilBufferFull | examples/tcp/tcp-large-transfer.cc:221-243 | what the socket has accepted is the prefix of the pattern of the counted length, reads stay in the buffer, it gets ahead exactly when there is space and the first send is not refused, stops early only when full or refused, and closes exactly when all was accepted |
| LargeTransfer.Sender.Callback | examples/tcp/tcp-large-transfer.cc:214-217 | a callback in an epoch with space and no refusal brings the transfer at least a byte closer, whatever happened before |
| LargeTransfer.Sender.Flow | examples/tcp/tcp-large-transfer.cc:209-243 | over any callbacks, the socket changing in between, the stream is a prefix of the repeated alphabet, at least a byte for each callback that was served, and the socket was closed exactly if all 2000000 bytes are accepted |
| LargeTransfer.Sender.ServedFlow | examples/tcp/tcp-large-transfer.cc:209-243 | if every callback finds space and is not refused, at most as many callbacks as there are bytes complete the transfer and close the socket |
| Fairness.GapStep | examples/tcp/dctcp-example.cc:191-197 | what one more counter adds to the difference of the two products |
| Fairness.CauchySchwarz | examples/tcp/dctcp-example.cc:191-197 | the square of the sum is at most the count times the sum of squares, equal exactly for equal counters |
| Fairness.SquaresBelow | examples/tcp/dctcp-example.cc:191-197 | the sum of squares is at most the square of the sum |
| Fairness.JainBounds | examples/tcp/dctcp-example.cc:191-197 | with some traffic the index is between 1/n and 1, and 1 exactly for equal counters |
| Fairness.WrapFreeIff | examples/tcp/dctcp-example.cc:191-197 | both products are free of wrap-around if and only if the count times the sum of squares is below 2^64 |
| Fairness.NoWrapBelowLimit | examples/tcp/dctcp-example.cc:191-211 | up to twenty counters of at most 214748364 never wrap |
| Fairness.LimitIff | examples/tcp/dctcp-example.cc:191-211 | up to twenty counters of at most a bound are free of wrap-around if and only if the bound is at most 214748364 |
| Fairness.PrintedIsJainIff | examples/tcp/dctcp-example.cc:191-197 | the printed index is Jain's if and only if the divisor did not wrap to zero and both products lost words in proportion to what is left |
| Fairness.IndexLimitIff | examples/tcp/dctcp-example.cc:191-211 | up to twenty counters of at most a bound always have their index printed right if and only if the bound is at most 214748364 |
| Fairness.WrongIndex | examples/tcp/dctcp-example.cc:205-211 | twenty counters for which a number below one is printed that is not their index |
| Fairness.EqualCounters | examples/tcp/dctcp-example.cc:191-197 | equal counters are printed 1, wrap-around or not, unless the divisor wraps to zero |
| Fairness.Accumulate | examples/tcp/dctcp-example.cc:191-195 | the loop yields the sums modulo 2^64 |
| Fairness.GroupFairness | examples/tcp/dctcp-example.cc:191-197 | the printed quotient is that of the wrapped products, not a number for zero by zero and infinity for another number by zero, and Jain's index if nothing wraps |
| Fairness.InfiniteIndex | examples/tcp/dctcp-example.cc:191-197 | ten counters with an index of 0.625 for which infinity is printed |
| Fairness.Counters.InitializeCounters | examples/tcp/dctcp-example.cc:143-158 | all counters are zero |
| Fairness.Counters.TraceSink | examples/tcp/dctcp-example.cc:125-141 | one counter grows by the packet size modulo 2^64, and the total of its group by the size if the counter has room |
| Fairness.Counters.PrintFairness | examples/tcp/dctcp-example.cc:184-228 | each index is the quotient of the wrapped products: not a number without traffic; else Jain's index, within its bounds and 1 exactly for equal counters, if and only if the words lost are in proportion, as they are when nothing wraps |

## Left out

- DispatchRunner.RunTests: needs at least one worker, as `CompletesIff` shows; how the number of workers follows from the processors and the process limit, job output, XML files and reports are not modelled.
- DispatchRunner.ScheduleOne: an exception inside a worker or the collector, which would end that thread, is not modelled; a second interrupt changes nothing and is not a step.
- StyleCheck.SourceTree.CheckStyle: what the formatter accepts and writes is a parameter, as is the selection of files by directory and extension; files are processed one after the other (they are independent); a missing formatter, which ends the program with an error, is not modelled.
- StaticInformation.Gatherer.Gather: the type registry is a parameter, with the child relation given; sorting the discarded copy has no effect and is not modelled.
- StaticInformation.Gatherer.RecordAggregationInfo: looking up a name returns the first type registered under it; the registry itself is not part of this model.
- Welford.Log: computes over the reals without rounding, the square root being a parameter; rates and periods are samples here, not quotients.
- EventBench.Bench.Run: wall-clock times are left out, and events at the same time may fire in any order, which the event function cannot tell apart.
- Timeline.TimelineDataRange.Search: the midpoint is an exact quotient; the parsing of lines and the grouping by name before `RangesOfFile` and `EventsOfFile` are left out.
- Timeline.TimelineDataRange.Sort: the library sort is its specification, a stable sort; that Python 3 refuses the positional argument is not modelled, as nothing would follow it.
- Scale.ScaleRenderer.Layout: arithmetic is exact; beyond 2^53 a quotient of floats may round to one, and remainders of fractional bounds are rounded.
- Legend.TopLegendRenderer.Draw: colours and text drawing are left out; a box covers swatch, gaps and text.
- LargeTransfer.Sender.WriteUntilBufferFull: assumes that a send that does not refuse accepts at least one of the bytes offered; otherwise the loop need not end. Each callback is called in an epoch of its own.
- Fairness.GroupFairness: the quotient is exact, and the average throughput printed beside it is left out.
- All other examples, bindings and build scripts: configuration and library calls.
