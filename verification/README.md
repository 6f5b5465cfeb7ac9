# hull, verified

A Dafny model of the parts of hull whose promises range over every input, every run or every
interleaving. `dafny verify dfyconfig.toml` checks all of it.

- **Guest output filter** (`EscapeGrammar`, `EscapePolicy`, `EscapeMeasures`, `TermFilter`, `FilterLaws`,
  `TermFilterTheorems`): the streaming tokenizer that decides which bytes of a guest reach the operator's
  terminal. The grammar is that of sections 5.4 and 5.6 of ECMA-48, section 13 of ECMA-35 and section 4 of
  RFC 3629. `EscapeMeasures` and `FilterLaws` say, kind by kind, where a token ends and what becomes of it.
- **Supervisor** (`Restart`) and its race with `compose down` (`Teardown`).
- **Instance lifecycle** under crashes (`Lifecycle`).
- **Compose front end**: start order (`StartOrder`), gated start-up with its unwind (`ComposeUp`), the
  address plan (`Addresses`), the include rewrite (`Includes`, `IncludeRewriter`), YAML merge folding
  (`Merge`, `MergeTheorems`) and the kernel argument vector (`ProcArgs`).
- **Image store**: prune against run's lookup (`Prune`, `PruneTheorems`).
- **Linux network hook** (`NetHook`, `NetHookSteps`).

`Common` and `Bytes` hold what several modules use.

## How the model is built

Foreign calls (a child command, a plugin, a mount, a record write, a probe, a signal) are parameters or
nondeterministic steps, so a claim holds for every answer they may give. Code that updates state step by
step is a class or a method with loops, proved equal to a function of its old state; the theorems are
about that function. Protocols between processes are transition systems, and their theorems speak of all
runs.

Taken as given: `ps` and SIGKILL are reliable, record writes are atomic, commands on one instance do not
overlap, stops succeed in `Teardown`, the daemon's shutdown grace is not exceeded there, and staged
copies can be written in `Includes`. Names, digests, references and YAML keys that are only compared are
numbers, their rank in alphabetical order. Go's zero time is `None`. Strings are bytes where the source
works on bytes. `Load` in `Includes` is the strict loader as hull relies on it: relative names resolve
from the directory of the file they are written in, and a service's `extends` is followed through every
file it leads to.

Where the code and its comments disagree, the model follows the code:

- The supervisor's comments say that its promises survive the death of the daemon. They do not in the
  window between a boot and the second look at the flag (`Teardown.DeathInWindowResurrects`), nor when the
  flag cannot be saved (`Teardown.UnsavedFlagResurrects`). What is live at the end is stated exactly, by
  `Teardown.NeverResurrect` for runs that saved the flag and by `Teardown.LiveAtEndIff` for all runs.
- A reload is meant not to fail over a drifted file. The rewrite looks only at the file a service's
  `extends` names, as its comment admits, so a base that itself extends something broken fails the reload
  (`Includes.NestedExtendsFails`); `Includes.ReloadSucceedsIff` says exactly when it succeeds.
- `hull rm` on Linux keeps an instance whose detach failed, but when the log directory cannot be locked it
  tries no detach at all and deletes the container under its record (`NetHook.LockFailureLosesLease`; the
  exact condition is `NetHook.RmDeletesUnderRecordIff`).
- Prune is said to remove only what run would never choose. After a prune a reference keeps its answer
  exactly when that image is held or not outdated by another of its own name
  (`PruneTheorems.AnswerStaysIff`). For a name this fails exactly on a tie in pull times, where prune removes
  the very image run chooses (`PruneTheorems.NameStaysIff`, `PruneTheorems.TieDisagrees`); for a digest pin
  it fails once the image's tag has moved on (`PruneTheorems.PinStaysIff`, `PruneTheorems.PinLosesAnswer`).
- The unwind of a failed `up` is said to name a possibly half-created instance. It also names the failing
  service's instance when this `up` made none: on an interrupt, on a refused gate, and when run refuses a
  name that is taken. An older instance of that name is then stopped and removed
  (`ComposeUp.TakenNameIsRemoved`). `ComposeUp.Run.Up` states which instances of the old store are gone
  after a failure, as an if-and-only-if, and that all others are as they were.
- The stop order of a failed `up` is dependents before dependencies only among recorded services; the
  failing instance comes last, after what it depends on.
- An argument vector whose first argument is empty does not survive the round trip
  (`ProcArgs.RoundTripIff`).
- The gateway a guest derives differs from the daemon's exactly when the network's last octet is 255
  (`Addresses.GatewayAgreesIff`), which only a /32 allows and the capacity check refuses.

## Model

| member | source | states |
|---|---|---|
| `EscapeGrammar.MeasureString` | cmd/hull/termfilter.go:320-336 | the loop finds the end of a control string, and counts at most one test per byte |
| `EscapeGrammar.MeasureEscape` | cmd/hull/termfilter.go:261-315 | the measure of the sequence an ESC opens, in at most its length plus two byte tests |
| `EscapeGrammar.MeasureAfterIntro` | cmd/hull/termfilter.go:342-378 | the in-place measure succeeds with n exactly when the simple measure of ESC k rest succeeds with n+1, in linear work |
| `EscapeGrammar.EscapeLenStable` | cmd/hull/termfilter.go:261-336 | a measure that succeeded is unchanged by any bytes appended |
| `EscapeMeasures.CsiIsMeasured` | cmd/hull/termfilter.go:261-336 | a control sequence ends with the first byte that is neither parameter nor intermediate, counted unless it is ESC |
| `EscapeMeasures.CsiIsUnfinished` | cmd/hull/termfilter.go:261-336 | parameters and intermediates alone never complete one |
| `EscapeMeasures.InterIsMeasured` | cmd/hull/termfilter.go:261-336 | ESC with intermediates ends with the byte after them, counted unless it is ESC |
| `EscapeMeasures.InterIsUnfinished` | cmd/hull/termfilter.go:261-336 | ESC with nothing but intermediates is not complete |
| `EscapeMeasures.StringIsMeasured` | cmd/hull/termfilter.go:320-336 | every control string ends with its terminator, or before an ESC that begins none |
| `EscapeMeasures.StringIsUnfinished` | cmd/hull/termfilter.go:320-336 | without a terminator, or with half of one, a control string is not complete |
| `EscapeMeasures.PairIsMeasured` | cmd/hull/termfilter.go:261-315 | any other byte completes the sequence, but a second ESC is left for the next one |
| `EscapeMeasures.WellFormedIsMeasured` | cmd/hull/termfilter.go:261-336 | a well-formed quiet sequence measures to its own length whatever follows |
| `EscapePolicy.CsiVerdict` | cmd/hull/termfilter.go:457-498 | the backward scan computes the verdict on parameters, intermediates and final byte |
| `EscapePolicy.OscVerdict` | cmd/hull/termfilter.go:524-577 | the verdict on an OSC, from its terminator, its code and its fields |
| `EscapePolicy.EscapeVerdict` | cmd/hull/termfilter.go:382-455 | a sequence of full length passes if and only if it is of a known family, complete, legally ended and quiet |
| `EscapePolicy.CsiPolicy` | cmd/hull/termfilter.go:457-498 | a well-formed control sequence passes if and only if it solicits no reply |
| `EscapePolicy.OscPolicy` | cmd/hull/termfilter.go:524-577 | an OSC is judged by its fields alone, whichever of three terminators ends it |
| `EscapeMeasures.OscByNumber` | cmd/hull/termfilter.go:508-577 | for every number: 1337 never passes, a colour passes unless some field queries it, 52 passes when it sets and does not ask, all others pass |
| `EscapeMeasures.ColoursAre` | cmd/hull/termfilter.go:516-522 | the numbers with colour queries, listed |
| `EscapePolicy.ClipboardQueryNeverPasses` | cmd/hull/termfilter.go:508-514 | no spelling of code 52 with leading zeros, and no middle fields, let a clipboard query through |
| `EscapePolicy.SafeIsWhole` | cmd/hull/termfilter.go:382-455 | a passed sequence measures to its full length alone, so what follows cannot continue it |
| `EscapePolicy.SafeIffWellFormed` | cmd/hull/termfilter.go:382-577 | of the sequences that measure to their full length exactly the well-formed quiet ones pass |
| `TermFilter.TakeToken` | cmd/hull/termfilter.go:183-237 | one turn of the loop finds the next token and its verdict, in at most three tests per byte |
| `TermFilter.Sanitize` | cmd/hull/termfilter.go:183-237 | the pass equals the token-wise filter, with at most 3n byte tests for n bytes of any input |
| `TermFilter.Sanitizer.constructor` | cmd/hull/termfilter.go:132-135 | a new sanitizer holds nothing |
| `TermFilter.Sanitizer.Write` | cmd/hull/termfilter.go:137-161 | the held bytes and the output after a write, also when the writer fails; held stays within 4096 |
| `FilterLaws.CharIsEmitted` | cmd/hull/termfilter.go:183-237 | a character of RFC 3629 is emitted whole |
| `FilterLaws.BadLeadIsEmitted` | cmd/hull/termfilter.go:224-230 | a lead byte with which no character begins or can still begin is emitted alone |
| `FilterLaws.WidthIsRight` | cmd/hull/termfilter.go:224-230 | a width above one is that of a character, and to wait is to have seen the beginning of one |
| `FilterLaws.PartialCharWaits` | cmd/hull/termfilter.go:183-237 | every proper beginning of a character is held |
| `FilterLaws.QuietIsEmitted` | cmd/hull/termfilter.go:183-237 | every well-formed quiet sequence is emitted |
| `FilterLaws.ControlSequenceIsJudged` | cmd/hull/termfilter.go:183-237 | a control sequence before any bytes is emitted whole if it solicits no reply, and dropped whole if it does |
| `FilterLaws.ControlStringIsJudged` | cmd/hull/termfilter.go:183-237 | a control string is dropped with its terminator, unless it is an OSC whose fields are allowed |
| `FilterLaws.InterIsJudged` | cmd/hull/termfilter.go:183-237 | ESC with intermediates is emitted if it ends legally and does not switch the coding system, else dropped |
| `FilterLaws.PairIsJudged` | cmd/hull/termfilter.go:183-237 | any other pair is emitted unless it asks for identification, ends a string or is not 7-bit |
| `FilterLaws.DoubleEscIsDropped` | cmd/hull/termfilter.go:183-237 | of two ESC the first is dropped and the second looked at afresh |
| `FilterLaws.CutCsiIsDropped` | cmd/hull/termfilter.go:183-237 | a control sequence cut short by ESC is dropped up to that ESC |
| `FilterLaws.UnfinishedWaits` | cmd/hull/termfilter.go:183-237 | a sequence that has begun and not ended is held |
| `FilterLaws.EightBitSpelling` | cmd/hull/termfilter.go:239-257 | the 8-bit bytes that open a sequence are those whose 7-bit spelling, 0x40 lower, opens one |
| `FilterLaws.EightBitSequenceIsDropped` | cmd/hull/termfilter.go:183-237 | an 8-bit control sequence is dropped whole, quiet or not |
| `FilterLaws.EightBitStringIsDropped` | cmd/hull/termfilter.go:183-237 | an 8-bit control string is dropped with its terminator |
| `FilterLaws.StrayByteIsDropped` | cmd/hull/termfilter.go:183-237 | a continuation byte or other C1 control where a character should begin is dropped alone |
| `TermFilterTheorems.Conservation` | cmd/hull/termfilter.go:183-237 | the consumed prefix is the tokens end to end, the output the kept ones in order |
| `TermFilterTheorems.TextPassesThrough` | cmd/hull/termfilter.go:183-237 | valid UTF-8 without ESC is returned unchanged and wholly consumed |
| `TermFilterTheorems.TokenStable` | cmd/hull/termfilter.go:183-237 | a token once found is the same token whatever follows |
| `TermFilterTheorems.FilterAppend` | cmd/hull/termfilter.go:183-237 | filtering a + b is filtering a, then b after a's unfinished tail |
| `TermFilterTheorems.ChunkInvariance` | cmd/hull/termfilter.go:137-161 | every way of cutting a stream into writes in which no tail exceeds 4096 bytes emits and holds what one pass does |
| `TermFilterTheorems.HeldIsBounded` | cmd/hull/termfilter.go:120-161 | in every run, overlong tails included, at most 4096 bytes are held |
| `TermFilterTheorems.DropBreaksInvariance` | cmd/hull/termfilter.go:120-161 | the bound is needed: for every control string body of 4095 bytes or more, one cutting drops the tail and changes the output |
| `TermFilterTheorems.OutputIsFixpoint` | cmd/hull/termfilter.go:183-237 | filtering any output again drops nothing and leaves at most one lone lead byte |
| `TermFilterTheorems.TerminalSeesOnlySafeTokens` | cmd/hull/termfilter.go:137-161 | in every run of writes the terminal gets a fixpoint whose every escape sequence is well formed and quiet |
| `Restart.RestartBackoff` | cmd/hull/supervisor.go:200-212 | the doubling loop computes min(2^(k-1), 60) seconds |
| `Restart.BackoffIsMonotone` | cmd/hull/supervisor.go:200-212 | the wait never shrinks with the attempt and stays between base and cap |
| `Restart.PolicyRoundTrip` | cmd/hull/supervisor.go:109-138 | rendering an accepted policy and parsing it gives it back |
| `Restart.PolicyTexts` | cmd/hull/supervisor.go:109-126 | the five texts without a number, byte for byte, and what each means |
| `Restart.OtherPolicies` | cmd/hull/supervisor.go:109-126 | any other text is accepted if and only if it is on-failure with a number that is not negative, and gives that cap |
| `Restart.Supervisor.constructor` | cmd/hull/supervisor.go:285-290 | a new supervisor has no history |
| `Restart.Supervisor.ConsiderService` | cmd/hull/supervisor.go:357-405 | the trackers and events after one look at a service, as the decision function has them |
| `Restart.ConsiderKeepsSpacing` | cmd/hull/supervisor.go:357-405 | one look keeps all restarts spaced and remembered |
| `Restart.RestartsAreSpaced` | cmd/hull/supervisor.go:357-405 | in every run any two restarts of a service are at least the earlier one's backoff apart, across forgiveness and policy changes |
| `Restart.RunAccounts` | cmd/hull/supervisor.go:357-405 | the tracker counts exactly the restarts and give-ups since the last forgiveness |
| `Restart.BudgetIsKept` | cmd/hull/supervisor.go:357-405 | under on-failure:N at most N restarts and one give-up since the last forgiveness, the give-up only after all N |
| `Restart.RunHoldsHistory` | cmd/hull/supervisor.go:357-405 | in every run the tracker holds the counts, the wait and the stretch of life that the log and the looks tell |
| `Restart.LookDecides` | cmd/hull/supervisor.go:357-405 | for every look of every run, from the log and the earlier looks: restarted if and only if dead, within budget and past the wait; given up on if and only if dead with the budget spent and not said yet; forgiven if and only if alive for a minute; nothing else ever |
| `Teardown.LiveAtEndIff` | cmd/hull/compose.go:1356-1408 | in every run, whatever fails, no VMM loses its record, and at the end exactly those instances are live that were booted after down had passed them and not ended since |
| `Teardown.StepKeepsCovered` | cmd/hull/supervisor.go:593-668 | every step but an abandonment keeps a live instance covered by a pending stop or a pending second look |
| `Teardown.NeverResurrect` | cmd/hull/supervisor.go:593-668 | in every interleaving with the flag saved, an instance is live at the end if and only if the daemon died in its window after down had passed it and its VMM has not died since |
| `Teardown.RecordAtEndIff` | cmd/hull/compose.go:1356-1408 | in every run, whatever fails, exactly those instances have a record at the end that were booted after down had stopped them and not erased since; the project is gone |
| `Teardown.StoppedIsErased` | cmd/hull/compose.go:1356-1408 | a stopped instance whose removal is next does not keep its record |
| `Teardown.AtMostOneBoot` | cmd/hull/supervisor.go:593-668 | once the flag is cleared no restart begins: only one already in flight can still boot, in any interleaving |
| `Teardown.DownRemovesAll` | cmd/hull/compose.go:1356-1408 | with the flag saved and the daemon alive, every interleaving ends with no instance, no record, no orphan and no project |
| `Teardown.DeathInWindowResurrects` | cmd/hull/supervisor.go:593-668 | a run in which the daemon dies between boot and undo, and the service stays up |
| `Teardown.UnsavedFlagResurrects` | cmd/hull/supervisor.go:730-740 | a run in which the flag was not saved, and the service comes back |
| `Lifecycle.LaunchKeepsInv` | cmd/hull/run.go:2556-2597 | every step of run and restore keeps the invariant |
| `Lifecycle.StopKeepsInv` | cmd/hull/stop.go:94-234 | every step of stop keeps the invariant |
| `Lifecycle.RemoveKeepsInv` | cmd/hull/rm.go:55-130 | every step of rm and of the supervisor's clear keeps the invariant |
| `Lifecycle.CrashSafe` | cmd/hull/run.go:2556-2597 | at every point of every run with crashes at most one VMM is live, its record finds it, and its directory is deleted only when none is |
| `Lifecycle.RmForceRecovers` | cmd/hull/rm.go:55-100 | from whatever a run left behind, rm --force ends with nothing live and the name free |
| `Lifecycle.StopEndsIt` | cmd/hull/stop.go:94-234 | from whatever a run left behind, stop ends the VMM and records it |
| `Lifecycle.VmmEndsIff` | cmd/hull/rm.go:55-100 | in every reachable state a live VMM is ended by a stop that kills it, rm --force that kills it, a foreground end, its own exit, or a reap of an unrecorded one, and by no other step |
| `Lifecycle.RunningIsLeftAlone` | cmd/hull/rm.go:55-70 | rm without --force, restore and the supervisor's clear change nothing of an instance that is up |
| `Lifecycle.RunStarts` | cmd/hull/run.go:2556-2597 | run takes a free name to a running record with its pid and exactly that VMM |
| `Lifecycle.FailedRunGivesNameBack` | cmd/hull/run.go:2571-2587 | a run whose spawn fails leaves nothing |
| `Lifecycle.RestoreStarts` | cmd/hull/run.go:2556-2597 | restore of what any run left down ends with one running VMM, or with the record exactly as it was |
| `Lifecycle.RestoreReaps` | cmd/hull/checkpoint.go:347-360 | before it restores, nothing of the instance runs |
| `Lifecycle.RmRemoves` | cmd/hull/rm.go:55-100 | rm of an instance without a pid ends what runs unrecorded and frees the name |
| `Lifecycle.ClearRemoves` | cmd/hull/supervisor.go:687-717 | the supervisor's clear of what it does not see alive ends what runs and frees the name, whether or not its save worked |
| `Lifecycle.FailedStopIsUndone` | cmd/hull/stop.go:52-61 | a stop whose VMM will not die leaves it running, its record not marked as stopped by a person |
| `Lifecycle.ForegroundEnds` | cmd/hull/run.go:2651-2707 | a foreground run told to stop ends its VMM and records it |
| `Includes.Unchanged` | internal/compose/include_tolerance.go:85-147 | a rewrite that reports no change returns the document as it was and stages nothing |
| `Includes.StripKeepsServices` | internal/compose/include_tolerance.go:168-219 | the rewrite keeps everything but the include list, and of each service everything but an extends whose file does not parse |
| `Includes.StripKeepsEntries` | internal/compose/include_tolerance.go:85-147 | exactly the surviving include entries are kept, in order, each path standing for its original or its staged copy |
| `Includes.StripKeepsPaths` | internal/compose/include_tolerance.go:85-147 | the same for the paths of one entry |
| `Includes.StripLoads` | internal/compose/include_tolerance.go:85-147 | at every level and chain the rewritten document loads to the tolerant meaning of the original |
| `Includes.RewriteKeepsMeaning` | internal/compose/include_tolerance.go:43-69 | strictly loading the rewritten document with its staged copies gives exactly the tolerant meaning, on every finite graph of files |
| `Includes.ReloadSucceedsIff` | internal/compose/include_tolerance.go:43-69 | however the graph is broken, the reload succeeds if and only if every document reached through unbroken entries is well shaped and every extends it keeps leads through files that load |
| `Includes.NestedExtendsFails` | internal/compose/include_tolerance.go:149-219 | an extends whose base file parses but itself extends an unreadable file is kept, and the reload fails |
| `Includes.NestedExtendsInput` | internal/compose/include_tolerance.go:149-219 | such a project, of three files, in which nothing is stripped |
| `Includes.HealthyIsUntouched` | internal/compose/include_tolerance.go:43-69 | a project that loads strictly is returned as it stands and means the same |
| `IncludeRewriter.Rewriter.constructor` | internal/compose/include_tolerance.go:43-69 | nothing is staged at first |
| `IncludeRewriter.Rewriter.StripLevel` | internal/compose/include_tolerance.go:85-147 | one level of the rewrite and everything staged below it |
| `IncludeRewriter.Rewriter.StripList` | internal/compose/include_tolerance.go:85-147 | the loop over one include list |
| `IncludeRewriter.Rewriter.ResolveEntry` | internal/compose/include_tolerance.go:299-325 | the paths of one entry, stopping at the first that does not resolve |
| `IncludeRewriter.Rewriter.StripExtends` | internal/compose/include_tolerance.go:168-219 | each service keeps its name and body, and its extends unless that names a file that does not parse |
| `StartOrder.SortNames` | cmd/hull/compose.go:868-885 | a list without repeats sorted by name is the one ascending list of its elements |
| `StartOrder.AddService` | cmd/hull/compose.go:851-859 | a service counted once among the dependents of each of its dependencies, in any order of visits |
| `StartOrder.Index` | cmd/hull/compose.go:849-859 | the counts and the dependents of the whole project, in any order of visits |
| `StartOrder.FirstReady` | cmd/hull/compose.go:860-866 | the services of count zero, in alphabetical order |
| `StartOrder.Release` | cmd/hull/compose.go:873-880 | placing a service lowers exactly its dependents' counts and queues those that reach zero |
| `StartOrder.Compute` | cmd/hull/compose.go:848-885 | the algorithm has one result, whatever order its maps are walked in |
| `StartOrder.OrderIsTopological` | cmd/hull/compose.go:848-885 | a successful order holds every service once, each after all its dependencies |
| `StartOrder.FailsExactlyOnCycles` | cmd/hull/compose.go:848-885 | it fails if and only if a dependency is undefined or depends_on has a cycle |
| `StartOrder.OrderIsInTurn` | cmd/hull/compose.go:846-885 | services stand by when their last dependency was placed, alphabetical among those ready together |
| `StartOrder.OrderIsTheOnlyOne` | cmd/hull/compose.go:846-885 | no other order puts dependencies first and is in turn in that sense |
| `ComposeUp.CheckInstanceNames` | cmd/hull/compose.go:898-908 | accepts if and only if no two services share an instance name |
| `ComposeUp.IsOneShot` | cmd/hull/oneshot.go:160-172 | a service is a job if and only if it says so or some service waits for its completion, stated on the project itself |
| `ComposeUp.CheckCompletedDeps` | cmd/hull/oneshot.go:276-317 | passes if and only if every required completion gate has a readable record at exit code 0 |
| `ComposeUp.CheckHealth` | cmd/hull/compose.go:1205-1239 | passes if and only if no gated probe is broken and every required one is healthy |
| `ComposeUp.ListTeardown` | cmd/hull/compose.go:1042-1050 | the loop lists the recorded instances from the last started to the first |
| `ComposeUp.TeardownIsSafe` | cmd/hull/compose.go:1042-1050 | for any recorded part of an ordered project, each instance exactly once and dependents before dependencies |
| `ComposeUp.GateFromPrefix` | cmd/hull/compose.go:1187-1239 | between any two services, the next one's dependencies are recorded and its completion gates are at 0 |
| `ComposeUp.RefusedMeansUnreadable` | cmd/hull/oneshot.go:276-317 | during up a completion gate refuses only over an unreadable record, never over a status |
| `ComposeUp.Run.constructor` | cmd/hull/compose.go:1152-1168 | a new project has nothing recorded |
| `ComposeUp.Run.StartOne` | cmd/hull/compose.go:1187-1307 | one turn of the loop keeps the invariant; it fails, and for which reason, exactly as the answers and the first store decide |
| `ComposeUp.Run.Launch` | cmd/hull/compose.go:1260-1270 | the run command, refused over a taken name, failing with or without an instance left, and the record; the reason if any is decided by the answers |
| `ComposeUp.Run.Settle` | cmd/hull/compose.go:1272-1307 | a job must end with code 0, hooks must succeed, the save must succeed and no interrupt come; the first that does not is the reason |
| `ComposeUp.Run.Teardown` | cmd/hull/compose.go:1007-1032 | the recorded instances and then the failing one are stopped and removed, and nothing else in the store changes |
| `ComposeUp.FailedIsUnwound` | cmd/hull/compose.go:1007-1050 | the unwind names each created instance once, recorded dependents before dependencies, and the failing instance after all recorded ones |
| `ComposeUp.Run.Unwind` | cmd/hull/compose.go:1007-1032 | of what was created only stuck instances are left, and of the old store exactly the named failing instance is gone |
| `ComposeUp.Run.Up` | cmd/hull/compose.go:1052-1328 | for all answers: every run issued behind an open gate, in the start order; the first service with trouble, and only it, decides the failure and its reason; success means no service had any and every job is at 0; a failure unwinds what was created and leaves the old store as it was but for the named failing instance |
| `ComposeUp.TakenNameIsRemoved` | cmd/hull/compose.go:1260-1263 | in every sound project with a taken instance name the run is refused and the older instance is removed |
| `Addresses.PlanAddresses` | cmd/hull/compose.go:1093-1121 | for every subnet and count: refused exactly over capacity, else distinct addresses inside it, none reserved, none wrapping |
| `Addresses.Capacity` | cmd/hull/compose.go:1100-1104 | the exact capacity of every prefix length: 244 services in a /24, none in a /29 or smaller |
| `Addresses.OffsetIsExact` | cmd/hull/compose.go:1977-1982 | inside a subnet the 32-bit addition never wraps |
| `Addresses.ServiceAddress` | cmd/hull/compose.go:1100-1113 | every planned address is inside the subnet, unreserved, and leads its guest to the daemon's gateway |
| `Addresses.GatewayAgreesIff` | cmd/hull/netdiscover.go:224-237 | the gateway a guest derives is the daemon's if and only if the network's last octet is not 255 |
| `Merge.ResolveAlias` | internal/compose/warn.go:347-352 | at most nine aliases are followed, and the result is where that walk ends |
| `Merge.AsMapping` | internal/compose/warn.go:336-345 | the mapping behind aliases and a document node, or none |
| `Merge.MergeSources` | internal/compose/warn.go:323-332 | what one merge value refers to |
| `Merge.ReadDirect` | internal/compose/warn.go:290-304 | the direct keys, the first of each, and the merge values in order |
| `Merge.AddMerges` | internal/compose/warn.go:306-316 | merged keys added under the direct ones, earlier sources first |
| `Merge.SortEntries` | internal/compose/warn.go:317-318 | the same entries, ascending by key |
| `Merge.MappingEntries` | internal/compose/warn.go:285-319 | ends on every graph, cycles included, with unique ascending keys that are exactly the folded table |
| `MergeTheorems.DirectWins` | internal/compose/warn.go:305-316 | a direct key beats every merged one |
| `MergeTheorems.FirstSourceWins` | internal/compose/warn.go:306-316 | of the sources the first that has a key decides it |
| `MergeTheorems.MergedComesFrom` | internal/compose/warn.go:306-316 | a merged key comes from the first source that has it |
| `MergeTheorems.ReadInOrder` | internal/compose/warn.go:290-304 | keys and merge values are read in the order written, earlier ones over later ones |
| `MergeTheorems.SourcesAre` | internal/compose/warn.go:323-332 | a merge value names one source, or the items of a sequence in order |
| `MergeTheorems.MergePrecedence` | internal/compose/warn.go:285-319 | wherever a merge stands among the keys, an item of its sequence gives a key if no direct key, earlier merge or earlier item has it |
| `MergeTheorems.MappingIsItself` | internal/compose/warn.go:336-345 | a mapping is its own mapping, and a scalar or sequence is none |
| `MergeTheorems.MappingBehind` | internal/compose/warn.go:336-345 | a mapping is found behind an alias and as the content of a document |
| `MergeTheorems.LevelsDoNotMatter` | internal/compose/warn.go:281-319 | past the nesting depth the number of levels changes nothing, so the unbounded meaning is well defined |
| `MergeTheorems.MeaningIsMerge` | internal/compose/warn.go:271-276 | that meaning is a mapping's own keys over its sources' meanings |
| `MergeTheorems.WalkIsMeaning` | internal/compose/warn.go:277-319 | with merges nested at most 8 deep and aliases within the bound, the walk gives the unbounded meaning |
| `MergeTheorems.NinthMergeIsLost` | internal/compose/warn.go:281-289 | one merge deeper, the walk loses a key the meaning has |
| `ProcArgs.ProcessArgv` | cmd/hull/compose.go:1914-1946 | the loops compute the parse, with all four errors |
| `ProcArgs.RoundTripIff` | cmd/hull/compose.go:1910-1946 | for every path, padding, environment and byte order the argument vector comes back if and only if it is empty or its first argument is not |
| `ProcArgs.AcceptedIsLayout` | cmd/hull/compose.go:1910-1946 | every accepted buffer is the layout of what was read from it |
| `Prune.SupersededDigests` | cmd/hull/prune.go:288-315 | exactly the digests with a newer complete image of their group, each with the digest that replaced it |
| `Prune.NewestIsNewest` | cmd/hull/prune.go:297-307 | the group's keeper is complete, none of the group is newer, and there is one if the group has any |
| `Prune.PruneTargets` | cmd/hull/prune.go:206-263 | exactly the targets, and never an image an instance refers to |
| `Prune.CachedDigest` | cmd/hull/run.go:2721-2766 | the loop computes the pick of the lookup |
| `PruneTheorems.BestIsPick` | cmd/hull/run.go:2721-2766 | the pick is the most recently pulled candidate, the first listed of equals |
| `PruneTheorems.AnswerIsWanted` | cmd/hull/run.go:2721-2766 | a reference is answered if and only if a complete image of the platform has its name, digest, or repository with manifest or index digest; the answer is a latest pulled of those |
| `PruneTheorems.TargetIff` | cmd/hull/prune.go:206-263 | directory by directory: never a held one; one without a record if and only if named by a digest; else all with --all, and otherwise the unusable and outdated |
| `PruneTheorems.SameAnswerIff` | cmd/hull/run.go:2721-2766 | whatever is removed, the answer stays if and only if it was not removed |
| `PruneTheorems.KeeperTargetedIff` | cmd/hull/prune.go:206-263 | a group's newest image is a target if and only if it is not held and another group's record claims its digest |
| `PruneTheorems.KeeperStays` | cmd/hull/prune.go:206-263 | in a store keyed as pulls write it, a group's newest complete image is never a target |
| `PruneTheorems.AnswerSurvives` | cmd/hull/prune.go:269-287 | a name has an answer after the prune if and only if it had one, however many targets were removed |
| `PruneTheorems.AnsweredIff` | cmd/hull/prune.go:269-287 | after a prune any reference is answered if and only if some image that answered it was held or not outdated |
| `PruneTheorems.AnswerStaysIff` | cmd/hull/prune.go:269-287 | any reference, name or pin, keeps its answer if and only if that image is held or not outdated by a complete image of its own name and platform |
| `PruneTheorems.NameStaysIff` | cmd/hull/prune.go:317-324 | a name keeps its answer if and only if the image is held or no other of the group has its pull time |
| `PruneTheorems.PinStaysIff` | cmd/hull/prune.go:283-287 | a pin one image answers has that answer afterwards if the image is held or not outdated, and none otherwise |
| `PruneTheorems.DistinctTimesAgree` | cmd/hull/prune.go:269-287 | with distinct pull times prune never changes an answer |
| `PruneTheorems.TieDisagrees` | cmd/hull/prune.go:317-324 | equal pull times: prune removes what run chose, and run changes its answer |
| `PruneTheorems.PinLosesAnswer` | cmd/hull/prune.go:283-287 | a digest pin of a superseded image loses its answer |
| `NetHook.RecordsAreHonest` | cmd/hull/ocihook_linux.go:101-173 | in every run a record follows a successful attach, and an unreported lease always has its record and pin |
| `NetHook.FailedCreateLeavesNothing` | cmd/hull/ocihook_linux.go:125-146 | a failed createRuntime whose undo succeeded leaves no lease, pin or record |
| `NetHook.FailedDetachKeepsBoth` | cmd/hull/ocihook_linux.go:147-158 | a failed detach keeps pin and record |
| `NetHook.UndisturbedHook` | cmd/hull/ocihook_linux.go:125-169 | with no call failing createRuntime leaves lease, pin and record from any state, and postStop or detach none |
| `NetHook.UndisturbedRm` | cmd/hull/rm_linux.go:45-131 | with no call failing rm leaves no container, record or pin, and a lease only if it had no record and the runtime ran no postStop |
| `NetHook.RmDeletesUnderRecordIff` | cmd/hull/rm_linux.go:80-112 | rm without --force deletes a container under its record exactly when the lock failed and nothing else removed the record |
| `NetHook.LockFailureLosesLease` | cmd/hull/rm_linux.go:80-112 | a run in which that happens and the lease is lost |
| `NetHook.CarefulRmKeepsRecords` | cmd/hull/rm_linux.go:45-131 | with locks taken and no --force, a deleted container has no record and no unreported lease |
| `NetHook.CniIdIsUnique` | cmd/hull/ocihook_linux.go:182-184 | no two containers share an attachment ID |
| `NetHookSteps.Instance.constructor` | cmd/hull/ocihook_linux.go:101-122 | a created instance has no lease, pin or record |
| `NetHookSteps.Instance.CreateRuntime` | cmd/hull/ocihook_linux.go:125-146 | success leaves lease, pin and record; a failure is reported, and with its undo working leaves none of them |
| `NetHookSteps.Instance.PostStop` | cmd/hull/ocihook_linux.go:147-169 | success leaves nothing; a failure is reported; the record goes whenever it can be removed |
| `NetHookSteps.Instance.RunStop` | cmd/hull/ocihook_linux.go:147-169 | a detach that fails keeps pin and record; postStop goes on |
| `NetHookSteps.Instance.Remove` | cmd/hull/rm_linux.go:45-131 | under the lock and without --force the container is never deleted under its record; without the lock exactly when nothing else removed it; the record stays honest |
| `NetHookSteps.Instance.Unpin` | internal/cni/netns.go:59-71 | the pin after an unmount and a removal that may fail |
| `NetHookSteps.Instance.Pin` | internal/cni/netns.go:39-55 | the pin after replacing an old one, with each call that may fail |
| `NetHookSteps.Instance.AttachNetwork` | internal/cni/cni.go:114-150 | the lease after an attach and its deferred undo |

## Left out

- Includes: entries that set `project_directory`, and aliases inside include lists, are not modelled; the source leaves the former to the strict loader. The `include:` of a file that is only extended is taken as not read by the loader.
- IncludeRewriter: YAML nodes are values here, so rewriting nodes in place and sharing between them is not captured; the staged list is a field as in the source.
- Lifecycle: two overlapping commands on one instance, and the foreground run's wait against a concurrent stop; the source holds no lock across an operation.
- Teardown: pre_stop hooks and the volumes of `down`, which come before or after the steps modelled.
- ComposeUp: port forwards, host entries, the gateway daemon and lease warnings; the job's own VM stop, whose failure only warns; interference of the supervisor with job records, which it skips.
- Prune: staging directories of interrupted pulls and byte counts; digest-prefix references.
- Merge: the text of keys beyond their order, and the warnings built from the entries.
- Addresses: IPv6 subnets, for which the source's arithmetic is not written.
- Restart: the list of supervised services and the poll timer; a run is any sequence of looks at services with a clock that does not go back.
- NetHook: a hook killed midway, and the contents of the record.
- VM boot assembly, kernel command lines, root file systems, the agent protocol, the gateway's network stack, health probes themselves, telemetry, listings and flag parsing: foreign calls or members without a hard property.
