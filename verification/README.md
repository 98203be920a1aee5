# Verified models of Qadam Flow's algorithmic kernels

Most of Qadam Flow is integration code. This project models the parts that compute something, one
Dafny module per source file, and proves what they are for.

- `PathUtils`, `PathLaws`: the dot-path scanner, the resolver and the lookup that falls back through wrapper
  keys; a grammar that covers every path, and the laws of reading and writing at a path.
- `Calendar`, `LocaleDate`: typed dates, over the Gregorian calendar of section 21.4.1 of ECMA-262.
- `ColorHsl`: hex colours to HSL, as the inverse of section 7.1 of CSS Color Module Level 4.
- `ProcessTree`: memory of a process tree over arbitrary parent links.
- `FifoMutex`, `PromiseQueue`, `MemoryLock`: transition systems over one FIFO mutex, with the source's
  classes as methods that perform the transitions.
- `FileLock`: sections guarded by a lock file, as a semantics of nested programs and effects.
- `QadamVersion`, `PinFallback`: version grammar, order and caret range, and the decision that moves a
  pin, applied over many images.
- `ChatSteps`, `ChatRecords`: which records one chat step leaves, and what each of them says.
- `QadamPaths`: the walk that finds what to publish, against the walk that finds every package.
- `EnvMigrations`: the loops that rewrite the environment on start.
- `WorkspaceUtils`, `PublishPackage`: manifest rewriting and the assertions around it.
- `Wrappers`, `Decimal`, `WhiteSpace`: shared by the others.

Code that works step by step is a method with loops, or a class whose fields the methods change; each
is tied to a specification, and the lemmas say what the specification means. Where a promise of the
source fails on some inputs, the code is kept as it is and the exact condition is proved.

## Where the code and its comments or expected behaviour part

- A path of dots only has no segments, so it resolves to the value itself, but the lookup answers
  undefined for null and primitives (`PathUtils.ReportedPathResolves`).
- A date rendered year-day-month in ISO shape is read as year-month-day (`LocaleDate.YearDayMonthMisread`).
  The comment on local noon says that the UTC date is right for offsets below 12 hours in size; it is
  also right at exactly +12 hours, and wrong at exactly -12 hours (`LocaleDate.UtcDayOfLocalHour`).
- `isAcquireTimeout` is documented as never true for an error that the work threw. That holds exactly for
  work that lets no timeout on the same path out (`FileLock.TimeoutExactly`). Whether it does shows in its
  text: it must not lock the path, or wait for it, without catching the timeout.
- A timeout given to `memoryLock.acquire` after the first call for a key has no effect
  (`MemoryLock.FirstCallDecidesTimeout`).
- A call gated by an approval request without an approval id leaves no record at all
  (`ChatSteps.GatedCallIsDescribed`).
- `QF_DEV_PIECES` and `QF_DEV_QADAMS` are both mirrored onto `AP_DEV_QADAMS`, as are the two names for
  translations. If both are set and differ, the listing order decides (`EnvMigrations.OrderIsIrrelevantExactly`).
- The warning asks to rename blank variables too, but a blank `QF_` variable counts as unset, so the
  rename unsets the variable or uncovers its old alias (`EnvMigrations.BlankRenameUnsets`,
  `EnvMigrations.AdviceIsSafeExactly`).

## Model

| member | source | states |
|---|---|---|
| PathUtils.ParsePath | packages/web/src/lib/path-utils.ts:15-67 | The index-driven scanner, with its nested loops, reads every path as the scanner's grammar reads it: dots and brackets flush the buffer, quotes and escapes, and indices that run past the end included. |
| PathUtils.ParseKey | packages/web/src/lib/path-utils.ts:35-46 | The quoted-key scan: the unescaped key, and the position one past its closing quote, for terminated and unterminated quotes. |
| PathUtils.ParseNumber | packages/web/src/lib/path-utils.ts:50-57 | The unquoted-index scan: everything up to the closing bracket, and the position after it. |
| PathUtils.ParseSteps | packages/web/src/lib/path-utils.ts:15-67 | Compositional parsing: any list of written steps, in any mixture of `.name`, `["…"]`, `['…']` and `[n]`, reads back as those steps in front of whatever the rest of the path reads as, after any buffered text. |
| PathUtils.PrintParseRoundTrip | packages/web/src/lib/path-utils.ts:25-66 | Printing any valid steps and parsing the text gives exactly their segments. |
| PathUtils.QuotedRoundTrip | packages/web/src/lib/path-utils.ts:25-57 | Every segment list, keys with quotes, backslashes, dots and brackets and negative indices included, has a quoted text that parses back to it. |
| PathUtils.DottedAgreesWithQuoted | packages/web/src/lib/path-utils.ts:20-66 | For non-empty keys without `.` and `[`, the dotted form and the quoted form parse to the same keys. |
| PathUtils.PrependStep | packages/web/src/lib/path-utils.ts:15-67 | A plain word and a dot in front of any path prepend exactly one segment. |
| PathUtils.NoSegments | packages/web/src/lib/path-utils.ts:15-67 | A path parses to no segments exactly when it consists of dots only. |
| PathLaws.EveryPathHasShape | packages/web/src/lib/path-utils.ts:15-67 | Every non-empty path begins with a dot, a word, or a bracket that holds a bare text or a quoted key, closed or left open at the end of the path. |
| PathLaws.ShapeMeans | packages/web/src/lib/path-utils.ts:15-67 | A path means what its beginning means, then what its rest means: nothing for a dot, the word, the unescaped key, and for a bare text the index if it reads as a number and else the text as a key; malformed brackets included. |
| PathLaws.ParseIntExactly | packages/web/src/lib/path-utils.ts:56-57 | A text reads as a number exactly if it is white space, at most one sign and digits, followed by anything but a digit; the number is that of the digits with the sign. |
| PathUtils.ResolveSegments | packages/web/src/lib/path-utils.ts:69-86 | The loop that stops early on a non-object computes the step-by-step resolution, where any step out of a primitive leads to undefined. |
| PathLaws.ResolveFinds | packages/web/src/lib/path-utils.ts:69-86 | Resolving yields what the segments lead to through elements and fields that are there, an array position being an index or a key that reads as a number; where they lead to nothing it is undefined. |
| PathLaws.ReadAfterWrite | packages/web/src/lib/path-utils.ts:69-86 | After a value is written where segments lead, with everything else kept, resolving those segments gives that value. |
| PathLaws.OtherReadsStay | packages/web/src/lib/path-utils.ts:69-86 | Segments that part from the written ones, at some step meaning another element or field, resolve as before. |
| PathUtils.ResolvePathWithWrapperFallback | packages/web/src/lib/path-utils.ts:88-113 | The result is the direct value if there is one, else the value through the first common wrapper that leads to something, else undefined with the path as given. |
| PathUtils.LookupIsUnique | packages/web/src/lib/path-utils.ts:88-113 | That promise determines the value and the reported path. |
| PathLaws.LookupExactly | packages/web/src/lib/path-utils.ts:88-113 | The answer in terms of where paths lead: what the path leads to, else what the first wrapper leads to that the path does not begin with, under the path with that wrapper in front, else nothing. |
| PathUtils.ReportedPathResolves | packages/web/src/lib/path-utils.ts:88-113 | Resolving the reported path gives the returned value exactly except for null or a primitive looked up by dots only; whenever the returned value is defined it holds. |
| PathUtils.LookupIsFixedPoint | packages/web/src/lib/path-utils.ts:88-113 | Looking up the reported path again returns the same value and the same path. |
| Calendar.SurvivesExactlyDates | packages/web/src/lib/locale-utils.ts:119-128 | A year, month and day come back unchanged from day-number rollover and its inverse (section 21.4.1 of ECMA-262) if and only if they name a real Gregorian date. |
| Calendar.InverseOnDates | packages/web/src/lib/locale-utils.ts:119-126 | Reading back the day number of a real date gives that date. |
| Calendar.ForwardOfInverse | packages/web/src/lib/locale-utils.ts:119-126 | Every day number is the day number of the date read from it, so rollover loses no day. |
| Calendar.YearFromDay | packages/web/src/lib/locale-utils.ts:119-126 | The year found for any day number, before or after 1970, is the one whose first day is not later and whose successor is later. |
| Calendar.MonthsStartAsListed | packages/web/src/lib/locale-utils.ts:119-126 | Months start on the days that ECMA-262 lists, one day later after a leap day. |
| Calendar.LeapYears | packages/web/src/lib/locale-utils.ts:119-126 | Years divisible by 4 have 366 days, except centuries that are not divisible by 400. |
| Decimal.FirstDigitCountsMost | packages/web/src/lib/locale-utils.ts:91-96 | In the number that digits denote, the first digit counts most, each ten times as much as the next. |
| LocaleDate.ParseLocaleDate | packages/web/src/lib/locale-utils.ts:79-129 | A date is returned if and only if the text names a real date: it is three runs of digits with other text between and around, in ISO shape or in the locale's field order, with a year of two digits, counted from 2000, or four. The result shows exactly that date, at 12 o'clock local time, at any offset below a day. |
| LocaleDate.ReadingExactly | packages/web/src/lib/locale-utils.ts:80-111 | The fields read are exactly those that the runs and gaps of the text name, so other group counts and years of one, three or five digits are refused. |
| LocaleDate.OneCut | packages/web/src/lib/locale-utils.ts:80-83 | A text is cut into runs of digits and gaps in one way only, so it names one date at most. |
| LocaleDate.NoonIsExact | packages/web/src/lib/locale-utils.ts:119-128 | The exactness check accepts a date if and only if it is real, for every offset. |
| LocaleDate.UtcDayOfLocalHour | packages/web/src/lib/locale-utils.ts:113-119 | The UTC day of a time stored at a local hour is the typed day exactly while hour minus offset stays within that day; for noon, from above -12 to +12 hours, both ways. |
| LocaleDate.PrintParseRoundTrip | packages/web/src/lib/locale-utils.ts:79-128 | A date printed in any field order, with any non-digit text around and between the fields, padded or not, year in two or four digits, reads back as itself, except exactly when it is year-day-month text of ISO shape with different day and month. |
| LocaleDate.YearDayMonthMisread | packages/web/src/lib/locale-utils.ts:86-91 | The exception is real for every day up to the 12th: day and month change places. |
| LocaleDate.IsoIsOrderFree | packages/web/src/lib/locale-utils.ts:86-91 | ISO text means the same date under every field order. |
| LocaleDate.GroupsOfTrim | packages/web/src/lib/locale-utils.ts:80-88 | Trimming white space does not change the digit groups, so the group count and the ISO test look at the same digits. |
| ColorHsl.ParseToHsl | packages/web/src/lib/color-utils.ts:22-80 | For every readable hex colour, converting the result back by section 7.1 of CSS Color Module Level 4 returns the exact red, green and blue; hue is in [0, 360), saturation and lightness in [0, 1], grey has hue and saturation 0, and no divisor is zero. |
| ColorHsl.PrintedColourIsRead | packages/web/src/lib/color-utils.ts:22-37 | Three bytes printed as two hex digits each, in either case, with or without `#`, read back as red, green and blue. |
| ColorHsl.ShortColourIsRead | packages/web/src/lib/color-utils.ts:27-32 | A three-digit colour reads as each digit doubled. |
| ColorHsl.ReadableExactly | packages/web/src/lib/color-utils.ts:22-37 | A colour is read exactly from three hex digits, or from six or more characters of which the first six are hex digits. |
| ColorHsl.Convert | packages/web/src/lib/color-utils.ts:39-79 | The same for every colour of the unit cube, not only those of hex texts. |
| ColorHsl.Inverts | packages/web/src/lib/color-utils.ts:49-70 | With the hue of any of the three branches and a saturation that spans half the distance of the extremes, the standard's three channels are the original ones. |
| ColorHsl.Amplitude | packages/web/src/lib/color-utils.ts:52-54 | Both saturation formulas give a value in [0, 1] whose product with the smaller of lightness and its complement is half the distance of the extremes. |
| ProcessTree.GetProcessTreeMemoryBytes | packages/server/utils/src/system-usage.ts:135-160 | Terminates on every list, cycles and self-parents included; the total is the memory of exactly the pids that descend from the root, each once, and 0 if the list cannot be read. |
| ProcessTree.Index | packages/server/utils/src/system-usage.ts:138-145 | The child lists hold exactly the parent links and the byte map the last recorded memory of each pid. |
| ProcessTree.LastEntryCounts | packages/server/utils/src/system-usage.ts:140-141 | A pid that occurs more than once counts with the memory of its last entry, in bytes. |
| ProcessTree.ClosedSetIsTree | packages/server/utils/src/system-usage.ts:147-156 | A set that holds the root, is closed under children and has only descendants is the process tree. |
| ProcessTree.SumOfOneMore | packages/server/utils/src/system-usage.ts:154-154 | Adding a new pid to a set adds exactly its memory, in whatever order the set is summed. |
| ProcessTree.TreeIsUnique | packages/server/utils/src/system-usage.ts:147-157 | The tree, and so the total, is determined by the list and the root. |
| PromiseQueue.StepKeepsConsistent | packages/web/src/lib/promise-queue.ts:3-21 | Adds, grants, completions and rejections keep: finished, running and queued tasks are the added ones in order; queued tasks match unstarted tickets one to one; no callback ever finds an empty queue. |
| PromiseQueue.RunsAreConsistent | packages/web/src/lib/promise-queue.ts:3-21 | This holds in every state of every interleaving, so at most one task is in flight. |
| PromiseQueue.EventsDecideTasks | packages/web/src/lib/promise-queue.ts:3-21 | In every run, after any events, the tasks added are those of the adds among them, in order; as many of the first ones have finished as there were settlements, the next is running if one more has started, and the rest are queued. |
| PromiseQueue.TicketRunsItsOwnTask | packages/web/src/lib/promise-queue.ts:16-20 | The callback that starts is handed the task whose `add` asked for its ticket. |
| PromiseQueue.NeverStuck | packages/web/src/lib/promise-queue.ts:16-20 | While a task is unfinished, a callback can start or the running one can settle, after rejections too. |
| PromiseQueue.Drains | packages/web/src/lib/promise-queue.ts:7-20 | A schedule that finishes every added task, in order, exists for every choice of rejections. |
| PromiseQueue.EveryScheduleDrains | packages/web/src/lib/promise-queue.ts:7-20 | Without further adds, no schedule of grants and settlements is longer than twice the queued plus the running tasks, whatever rejects, and those that are as long finish every task. |
| PromiseQueue.PromiseQueue.Add | packages/web/src/lib/promise-queue.ts:7-10 | The task goes to the end of the queue and a new ticket to the end of the lock's line; nothing else changes and the invariant is kept. |
| PromiseQueue.PromiseQueue.Granted | packages/web/src/lib/promise-queue.ts:17-19 | `shift` returns the head of the queue and is never undefined. |
| PromiseQueue.PromiseQueue.Size | packages/web/src/lib/promise-queue.ts:12-14 | The size is the number of added tasks that have neither started nor finished, and the number of unstarted tickets. |
| MemoryLock.StepKeepsLock | packages/server/utils/src/memory-lock.ts:17-35 | On one lock object, asking, ending, releasing, timing out and handing on keep: tickets are served in the order asked, a call in its body holds the mutex, and nobody releases early or twice. |
| MemoryLock.RunsAreConsistent | packages/server/utils/src/memory-lock.ts:3-35 | Every state of every interleaving over all keys keeps this, and keys and lock objects match one to one. |
| MemoryLock.EventsDecideLine | packages/server/utils/src/memory-lock.ts:6-23 | In every run the events alone decide the line of each key: those who asked for it, in order, less those who gave it back; a key has a lock exactly once someone asked for it. |
| MemoryLock.SettlesAsItsBodyEnds | packages/server/utils/src/memory-lock.ts:27-35 | In every run a call ends with an outcome exactly if its own body ended with that outcome. |
| MemoryLock.AtMostOneBody | packages/server/utils/src/memory-lock.ts:27-35 | Two calls of one key that are in or leaving their bodies are the same call. |
| MemoryLock.ReleasedExactlyOnce | packages/server/utils/src/memory-lock.ts:28-34 | A call has released its lock exactly once when it is over, returned or threw, and not at all before; a timed-out call does so once for the ticket it left. |
| MemoryLock.OtherKeysUnaffected | packages/server/utils/src/memory-lock.ts:6-17 | An event of one key changes neither the lock nor the possible events of any other key. |
| MemoryLock.NeverStuck | packages/server/utils/src/memory-lock.ts:17-34 | While a key has unfinished calls, its holder can go on, whatever happens under other keys, given that bodies end on their own; a body that waits for another key is not represented. |
| MemoryLock.EveryScheduleEnds | packages/server/utils/src/memory-lock.ts:17-34 | While nobody else asks for a key, no schedule of its events is longer than two for each waiting or running call and one for each leaving or timed-out one, and those that are as long have served every call and leave the lock free. |
| MemoryLock.BoundForEver | packages/server/utils/src/memory-lock.ts:7-16 | Once bound, a key keeps its lock object and that object's timeout for the whole run. |
| MemoryLock.FirstCallDecidesTimeout | packages/server/utils/src/memory-lock.ts:8-16 | Whether waiters of a key can time out is whether the first call for that key gave a non-zero timeout; later timeouts are ignored. |
| MemoryLock.MemoryLocks.Acquire | packages/server/utils/src/memory-lock.ts:6-23 | The method creates and binds the lock on first use only, and tells whether the caller holds it now. |
| MemoryLock.MemoryLocks.Release | packages/server/utils/src/memory-lock.ts:32-34 | `finally` releases and settles the call as its body ended. |
| FileLock.RunExclusive | packages/server/utils/src/file-lock.ts:12-42 | The method with its shared `compromised` flag: a refused lock gives its error, and a timeout for `ELOCKED`, without running the work; else outcome, flags and ordered effects follow from those of the work, the report and the release. It agrees with sections in the semantics of nested programs. |
| FileLock.TimeoutExactly | packages/server/utils/src/file-lock.ts:43-46 | Over all outcomes of the locks, waits, looks and steps of its work, a section's error reads as a timeout on its own path exactly when its lock was refused as held, if and only if the text of the work lets no timeout on that path out under the locks already held; what it lets out can be computed before the call. |
| FileLock.TimeoutMeansNotRun | packages/server/utils/src/file-lock.ts:43-46 | If the work lets no timeout on the outer path out, inner sections on that path that are caught included, the error reads as a timeout exactly when the outer lock was refused, and then the work had no effect at all. |
| FileLock.OnlyEscapesLeave | packages/server/utils/src/file-lock.ts:12-27 | A timeout that leaves any program leaves it in one of the ways its text allows, with at least the compromised flags of that way set. |
| FileLock.EscapeIsReal | packages/server/utils/src/file-lock.ts:12-27 | Each of those ways happens for some outcomes of the same program, with exactly its flags. |
| FileLock.EscapeMisleads | packages/server/utils/src/file-lock.ts:43-46 | Otherwise, whatever the work looks like, some outcomes make it run under a granted lock and its error read as a timeout of that lock. |
| FileLock.SamePathMisleads | packages/server/utils/src/file-lock.ts:43-46 | One family of such runs: after any successful work, an inner timeout on the outer path reads as the outer one. |
| FileLock.EscapesAreNamed | packages/server/utils/src/file-lock.ts:43-46 | Work that neither locks nor waits for a path at any depth lets no timeout on it out. |
| FileLock.TimeoutsComeFromLocks | packages/server/utils/src/file-lock.ts:25-27 | A timeout error that leaves any program names a path that the program tries to lock or waits for. |
| FileLock.ErrorPrecedence | packages/server/utils/src/file-lock.ts:28-42 | The work's error wins over a release error; a release error is the outcome exactly when the work succeeded and the lock was not compromised. |
| FileLock.ErrorsHaveACause | packages/server/utils/src/file-lock.ts:24-42 | Every error that leaves a nested program was thrown in it, came from a wait, was a refused lock, or was the failed release of a lock that was not compromised and whose work had succeeded. |
| FileLock.HiddenReleaseErrorIsLogged | packages/server/utils/src/file-lock.ts:30-37 | A release error is logged exactly when the work's own error hides it and the lock was sound. |
| FileLock.CompromiseIsLogged | packages/server/utils/src/file-lock.ts:20-23 | A compromised flag is never cleared, and is set only together with a log entry for its lock. |
| FileLock.ReportsAreKept | packages/server/utils/src/file-lock.ts:20-23 | A compromise that any run reaches, however deep in nested sections, is logged, and the flag of its lock is set at the end. |
| FileLock.ReportedSectionEndsAsItsWork | packages/server/utils/src/file-lock.ts:87-93 | A section whose lock was reported compromised while its work ran ends as its work ended, whatever its release does. |
| FileLock.ThrownErrorsLeave | packages/server/utils/src/file-lock.ts:30-37 | An error thrown anywhere in the work leaves all sections around it unchanged. |
| FileLock.EventsAreKept | packages/server/utils/src/file-lock.ts:24-42 | Every event of a part that a run reaches is an event of the run. |
| FileLock.LocksAreBalanced | packages/server/utils/src/file-lock.ts:24-41 | For every nested program and every outcome, each lock taken is given back, in reverse order. |
| FileLock.FallbackRunsWorkOnce | packages/server/utils/src/file-lock.ts:43-46 | A caller that falls back to unguarded work on a timeout runs the work once when the lock is granted or times out, and never on another acquisition error, if the work lets no timeout on that path out. |
| QadamVersion.ParseExactly | packages/shared/src/lib/automation/qadams/qadam-version.ts:6-34 | Every version within nine digits a number has exactly one text, and the parser accepts exactly those texts. |
| QadamVersion.NumbersInOrder | packages/shared/src/lib/automation/qadams/qadam-version.ts:11-34 | The numbers stand for major, minor and patch in that order, and for the snapshot after `-main.`. |
| QadamVersion.ExactPin | packages/shared/src/lib/automation/qadams/qadam-version.ts:36-44 | The pins without a range are exactly the versions, with the same reading. |
| PinFallback.CompareIsPrecedence | packages/server/utils/src/qadam-pin-fallback-decision.ts:153-173 | The comparison is the precedence of section 11 of Semantic Versioning 2.0.0, prerelease identifiers included, and is zero only on equal versions. |
| PinFallback.CompareIsTotalOrder | packages/server/utils/src/qadam-pin-fallback-decision.ts:153-173 | It is a strict total order. |
| PinFallback.CaretIsInterval | packages/server/utils/src/qadam-pin-fallback-decision.ts:134-151 | The caret range is the interval from the pin up to, not including, the lowest snapshot of the next incompatible line, for major, 0.x and 0.0.x alike. |
| PinFallback.CaretKeepsLeftmost | packages/server/utils/src/qadam-pin-fallback-decision.ts:131-151 | A caret allows exactly what is not below the pin and agrees with it up to the leftmost number that is not zero, or in all three if all are. |
| PinFallback.CaretIsTransitive | packages/server/utils/src/qadam-pin-fallback-decision.ts:134-151 | Moving inside a range keeps its upper end, so ranges nest. |
| PinFallback.MovesExactly | packages/server/utils/src/qadam-pin-fallback-decision.ts:30-59 | A pin moves if and only if it is exact, the image's build is loaded and readable, strictly above it and inside the interval, and the props allow it; the verdict then names the two versions. |
| PinFallback.NamesFirstFailure | packages/server/utils/src/qadam-pin-fallback-decision.ts:5-12 | A verdict to stay names the first of the ten checks that fails on its own, and a move means that none fails. |
| PinFallback.SameVersionSameText | packages/server/utils/src/qadam-pin-fallback-decision.ts:45-47 | "Nothing to move" is said exactly when pin and image carry the same version text. |
| PinFallback.NetAllowsExactly | packages/server/utils/src/qadam-pin-fallback-decision.ts:68-87 | The net allows exactly pairs of releases in the caret interval. |
| PinFallback.TrailNeverReturns | packages/server/utils/src/qadam-pin-fallback-decision.ts:30-59 | Over any sequence of images a pin stays in the caret range it started with and never comes back to a version it left. |
| PinFallback.TrailUpgrades | packages/server/utils/src/qadam-pin-fallback-decision.ts:30-59 | Of any two moments the later pin is the same text or a strictly higher version inside the earlier pin's range. |
| PinFallback.AskAgainStays | packages/server/utils/src/qadam-pin-fallback-decision.ts:45-47 | Asked again with the image just adopted, whatever the props and the load say now, the answer is to stay. |
| ChatSteps.BuildStepParts | packages/server/utils/src/chat-ai-utils.ts:293-410 | The passes that fill the result map, collect the gated ids and push records leave exactly what each part leaves given the whole step, in order. |
| ChatSteps.CollectResults | packages/server/utils/src/chat-ai-utils.ts:296-301 | The first pass maps every id to the last report on it. |
| ChatRecords.TextIsKept | packages/server/utils/src/chat-ai-utils.ts:317-319 | The text records of a step are, in order, one for each text part that is not empty, with its text. |
| ChatRecords.ReasoningIsKept | packages/server/utils/src/chat-ai-utils.ts:314-316 | The same for reasoning. |
| ChatRecords.ApprovalsAreKept | packages/server/utils/src/chat-ai-utils.ts:320-333 | The approval records are, in order, one for each request that names a call and has an approval id, with both ids and the call's name and input. |
| ChatRecords.StatusesAreKept | packages/server/utils/src/chat-ai-utils.ts:342-350 | The status records are, in order, the non-empty status arguments of the calls that only update the status. |
| ChatRecords.CallsAreTold | packages/server/utils/src/chat-ai-utils.ts:343-371 | The call records are, in order, one for each call that is neither awaiting approval nor a status update, with its id, name, arguments, title and description, and with the opened output and the success of the last report on its id. |
| ChatRecords.FateExactly | packages/server/utils/src/chat-ai-utils.ts:307-344 | A call awaits approval exactly if some request in the step names its id; otherwise its name decides whether it only updates the status. |
| ChatRecords.ReceiptsAreKept | packages/server/utils/src/chat-ai-utils.ts:379-405 | The receipts are, in order, one for each persisted action with a report. |
| ChatRecords.ReceiptTells | packages/server/utils/src/chat-ai-utils.ts:379-404 | A receipt claims success exactly if the report is a result whose output denies no success, claims no error, begins with no mark of failure or waiting and mentions no cancelling; its error text, connection label and qadam name are those of the output and the call. |
| ChatRecords.BatchesAreKept | packages/server/utils/src/chat-ai-utils.ts:372-378 | The batch records are, in order, the batch progress in the outputs of the persisted actions. |
| ChatRecords.StepInOrder | packages/server/utils/src/chat-ai-utils.ts:311-408 | What comes earlier in a step leaves its records earlier. |
| ChatSteps.CallsAreConserved | packages/server/utils/src/chat-ai-utils.ts:319-405 | The calls of a step are, counted with repetition, those persisted, those awaiting approval and those that only update the status; the persisted records are those of the first kind, in input order. |
| ChatSteps.CompletedExactly | packages/server/utils/src/chat-ai-utils.ts:296-301 | A call is recorded as completed exactly when the last report on its non-empty id is a result and not an error. |
| ChatSteps.MergeDoesNotMatter | packages/server/utils/src/chat-ai-utils.ts:303-307 | However the streams were merged, each leaves the same records in the same order, as long as the reports on any one id keep their order. |
| ChatSteps.StreamsDoNotMix | packages/server/utils/src/chat-ai-utils.ts:311-408 | The records of one stream are those that its parts leave, unaffected by the parts between them. |
| ChatSteps.GatedCallIsDescribed | packages/server/utils/src/chat-ai-utils.ts:320-341 | A gated call has an approval record exactly when one of the requests for it carries an approval id. |
| ChatSteps.ReceiptsFollowTheirCalls | packages/server/utils/src/chat-ai-utils.ts:355-405 | Every action receipt stands behind the record of its own call, with at most the batch record between them, and carries the same id, output and title; it claims success only for a completed call, and then reports no error. |
| ChatSteps.GatedByStream | packages/server/utils/src/chat-ai-utils.ts:307-309 | Whether a call is gated depends on the approval requests alone, before or after it. |
| QadamPaths.TraverseFolder | tools/scripts/utils/qadam-script-utils.ts:164-183 | The recursive loop collects the packages of a tree in the order they are met. |
| QadamPaths.TraverseFindsExactly | tools/scripts/utils/qadam-script-utils.ts:164-183 | A path is reported exactly when it leads through directories other than `node_modules` and `dist` to one that holds a `package.json` file. |
| QadamPaths.CollectsTheOutermost | tools/scripts/utils/qadam-publish-paths.ts:33-50 | On every tree, the publish walk returns exactly the packages of the full walk that lie in no other package, in the same order. |
| QadamPaths.CollectFindsExactly | tools/scripts/utils/qadam-publish-paths.ts:33-50 | The walk finds exactly the outermost packages of its root. |
| QadamPaths.CollectIsAntichain | tools/scripts/utils/qadam-publish-paths.ts:31-50 | No package to publish lies in another, and none is listed twice. |
| QadamPaths.EveryPackageIsPublishedOnce | tools/scripts/utils/qadam-publish-paths.ts:31-50 | Every package of the full walk has exactly one published ancestor-or-self. |
| QadamPaths.FoundIsAntichain | tools/scripts/utils/qadam-publish-paths.ts:13-24 | The same over both official roots together. |
| QadamPaths.JoinIsInjective | tools/scripts/utils/qadam-publish-paths.ts:28-28 | Paths whose names do not hold the separator are told apart by their text. |
| QadamPaths.ShuffledFindsTheSame | tools/scripts/utils/qadam-publish-paths.ts:39-49 | Reordering the entries of any directories at any level changes only the order of what is found. |
| QadamPaths.SortedIsUnique | tools/scripts/utils/qadam-publish-paths.ts:26-29 | Sorted lists with the same elements are equal. |
| QadamPaths.AtMostByFirstDifference | tools/scripts/utils/qadam-publish-paths.ts:28-28 | In the sorting order the first differing character decides, and a text comes before those it begins. |
| QadamPaths.ListIgnoresDirectoryOrder | tools/scripts/utils/qadam-publish-paths.ts:21-29 | The published list is sorted, holds what was found, and is identical for every order of directory entries. |
| QadamPaths.ListNamesExactly | tools/scripts/utils/qadam-publish-paths.ts:21-29 | The published list names exactly the directories below one of the two roots that hold a manifest, with no such directory above them there and no `node_modules` or `dist` on the way. |
| QadamPaths.ListIsStrictlyAscending | tools/scripts/utils/qadam-publish-paths.ts:21-29 | When no name holds the separator, the published list is strictly ascending, so no package is in it twice. |
| EnvMigrations.Process.MigrateNames | packages/server/utils/src/env-migrations.ts:53-89 | After the three loops every variable has its final value, by the last non-blank `QF_` variable for it, its own value, or its old alias, and exactly the deprecated names are warned about, in order. |
| EnvMigrations.Process.MirrorNames | packages/server/utils/src/env-migrations.ts:54-63 | The mirroring loop leaves, on every name, the value of the last non-blank variable for it in listing order. |
| EnvMigrations.WarningsExactly | packages/server/utils/src/env-migrations.ts:64-81 | Each listed `AP_` variable that is neither an old alias nor read by the shell layer, and whose `QF_` name is not set to something, is warned about once, with that name; no other variable is. |
| EnvMigrations.WarningsInOrder | packages/server/utils/src/env-migrations.ts:64-81 | Warnings come in listing order. |
| EnvMigrations.AliasIsCopiedExactly | packages/server/utils/src/env-migrations.ts:83-89 | Without conflicts, the last loop copies an old alias, and says so, exactly if it is set and neither the new name nor either `QF_` name is. |
| EnvMigrations.SourcesOf | packages/server/utils/src/env-migrations.ts:41-62 | A variable is fed by the `QF_` variable of its name and, if it is a new alias, by that of the old alias; old aliases are fed by none. |
| EnvMigrations.AliasesAreListed | packages/server/utils/src/env-migrations.ts:10-43 | The two old names, the new names they stand for, and that no other name is replaced. |
| EnvMigrations.EndsAsExpected | packages/server/utils/src/env-migrations.ts:54-89 | Without conflicts, each `AP_X` ends as non-blank `QF_X`, else its old value; a new alias falls back to the `QF_` name of the old alias, its own value, and last the old alias. |
| EnvMigrations.OrderIsIrrelevantExactly | packages/server/utils/src/env-migrations.ts:53-63 | The result is the same for every listing order if and only if no two non-blank variables for one name disagree. |
| EnvMigrations.ConflictsExactly | packages/server/utils/src/env-migrations.ts:41-43 | Only the `QF_` names of an old and of its new alias can disagree. |
| EnvMigrations.RunningAgainExactly | packages/server/utils/src/env-migrations.ts:53-89 | Running the loops again in any order changes nothing if and only if there is no such conflict. |
| EnvMigrations.AdviceIsSafeExactly | packages/server/utils/src/env-migrations.ts:64-81 | Doing the rename that a warning asks for leaves every other variable as it was, for every listing order, if and only if no variables conflict and: for a value that is not blank, the new name brings no conflict; for a blank one, it is a new alias whose old alias has a non-blank `QF_` value or is blank itself. |
| EnvMigrations.RenameSilences | packages/server/utils/src/env-migrations.ts:64-81 | After the rename nobody is warned of the old name. |
| EnvMigrations.BlankRenameUnsets | packages/server/utils/src/env-migrations.ts:64-81 | The rename unsets a blank variable exactly when it has no old alias, or one that is neither set nor given by its `QF_` name. |
| WorkspaceUtils.ExactVersionShape | packages/cli/src/lib/utils/workspace-utils.ts:59-61 | An exact version is one to three numbers joined by dots and maybe a dash and a tag of word characters and dots, and nothing else. |
| WorkspaceUtils.ResolveWorkspaceDependencies | packages/cli/src/lib/utils/workspace-utils.ts:36-57 | Every workspace reference becomes the non-empty version of its package and everything else stays; a failure names the first reference without one. |
| WorkspaceUtils.StripSemverRanges | packages/cli/src/lib/utils/workspace-utils.ts:70-85 | One leading `^` or `~` is dropped; a failure names the first dependency that is not exact after that. |
| WorkspaceUtils.PinnedExactly | packages/cli/src/lib/utils/workspace-utils.ts:78-78 | An exact version remains of a text exactly if the text is that version, or `^` or `~` and that version. |
| WorkspaceUtils.PreparedIsExact | packages/cli/src/lib/utils/workspace-utils.ts:36-85 | What both steps produce is exact and no workspace reference; another dependency changes exactly when it was not exact before. |
| WorkspaceUtils.PreparingAgainChangesNothing | packages/cli/src/lib/utils/workspace-utils.ts:36-85 | Both steps applied to their own result succeed and change nothing, even with other package versions. |
| WorkspaceUtils.PreparableExactly | packages/cli/src/lib/utils/workspace-utils.ts:36-85 | When both steps succeed, in terms of the dependency and the version map. |
| PublishPackage.Assert | tools/scripts/utils/publish-npm-package.ts:40-89 | Either assertion lists the offending entries field by field, in order, and passes if and only if no entry of the three fields offends. |
| PublishPackage.BothPassExactly | tools/scripts/utils/publish-npm-package.ts:40-89 | Both assertions pass exactly if every version in the three fields is exact. |
| PublishPackage.FindingsByField | tools/scripts/utils/publish-npm-package.ts:45-83 | The findings are those of the three fields, in order, each under its own field's name. |
| PublishPackage.FindingsOfBoth | tools/scripts/utils/publish-npm-package.ts:50-56 | Within a field the findings come in the order of the entries. |
| PublishPackage.Package.PrepareDist | packages/cli/src/lib/utils/prepare-qadam-utils.ts:38-61 | Succeeds if and only if every entry of the three fields can be prepared; the build output then holds the prepared entries and nothing else changed, and after a failure it holds the plain copy. |
| PublishPackage.Package.Publish | tools/scripts/utils/publish-npm-package.ts:146-194 | A publish is refused exactly for a range in the source manifest or an entry that cannot be prepared; the assertions on the build output never fail. |
| PublishPackage.PreparedPasses | tools/scripts/utils/publish-npm-package.ts:193-194 | A prepared manifest passes both assertions whatever the source manifest said. |
| PublishPackage.SourceCheckIsExact | tools/scripts/utils/publish-npm-package.ts:146-153 | The assertion on the source manifest passes exactly when preparation changes no dependency other than workspace references, which the later assertions cannot see. |
| PublishPackage.PreparingIsIdempotent | tools/scripts/utils/publish-npm-package.ts:155-164 | Preparing a prepared manifest changes nothing. |

## Left out

- Paths: numbers beyond exact double precision, UTF-16 code units above the basic plane, and lookups
  through JavaScript prototypes; objects are finite maps and arrays are sequences.
- Dates: `Intl` and the choice of the active locale, daylight saving, and local time other than a constant
  offset; the field order is a parameter.
- Colours: floating-point rounding and `toFixed`. Text that is not hex, which gives NaN or a partial
  reading in JavaScript, gives no colour here; `isGrayColor` and image loading are not modelled.
- Process memory: reading the process list, which is a parameter, and the CPU and RAM readers of the container.
- `async-mutex` is assumed to serve tickets in order, and its timeout wrapper to pass on a late ticket.
- `proper-lockfile` and the creation of directories are an oracle: each section says whether its lock was
  granted, whether and when it was reported compromised, and how its release went. Retries and staleness
  are inside that oracle.
- File-lock programs are finite: the work may mark, throw, read a flag, wait for a section that runs
  elsewhere, nest, sequence and fall back, but does not loop. What such a wait yields is an outcome of the
  environment.
- MemoryLock.NeverStuck: does not model a body that acquires another key; two bodies that wait for each
  other's keys block each other in the source.
- Pins: the wording of the details in a verdict; the props checker is a parameter.
- ChatSteps.BuildStepParts: does not model the timestamp of an action receipt, which is the clock's.
- Package walks: symbolic links, permissions and changes during the walk; a tree is a value with distinct
  names in each directory. Sorting is insertion sort by code point.
- Environment: `environmentMigrations.migrate`, which renames two mode values, and the text of the warnings.
  The listing order of the variables is a parameter.
- Publishing: reading the workspace's package versions, the registry check, copying of assets, staging of
  private packages, and running npm. The source manifest and the build output are assumed to exist.
- WorkspaceUtils.ResolveWorkspaceDependencies: a dependency object is a list of entries, so the numeric-like
  keys that JavaScript lists first keep their place here.
- PublishPackage.Assert: stands for both assertion functions, which differ only in what they look for and
  in the wording of the error, which is not modelled.
