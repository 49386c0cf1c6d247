# Verification model of the Steam Input lease system

The system lets one program take Steam Input away from Steam for as long as it runs. A payload inside Steam (the gate)
serves leases over a pipe, blocks Steam's controller access while a lease is held and no pass-through claim is, revokes
the HID handles Steam already has, and asks Steam to rediscover controllers afterwards. A host library and a launcher
take leases and start programs under them. This project models the parts that carry the branching, the shared state
and the arithmetic, and proves what they promise. `dafny verify dfyconfig.toml` checks everything.

| module | what it models | form |
|---|---|---|
| `Ownership` | connections, the two counters, hook installation, edges, the lock-free blocking test | state machine over any number of connections |
| `HandleTable` | the 4096-slot open-addressing table with tombstones and two-phase deletion | class over an array, refining a map |
| `Revocation` | the sweep over handles, against a kernel whose handle numbers are recycled | state machine |
| `RescanTimer` | the deferred second discovery with its mutex and condition variable | state machine with an abstract clock, with the counters free to move |
| `Bootstrap` | the proxy's table of targets and its ready flag | state machine, with the counters free to move |
| `ByteSearch` | the word-at-a-time byte search | methods over 64-bit words |
| `Resolver` | the fail-closed layout resolver over PE32+ images, for an arbitrary instruction decoder | methods against declarative predicates |
| `Binary64` | the deadline test on binary64 numbers | functions and lemmas over reals |
| `MemoryScan` | the chunked scan of private memory with a reused buffer | methods over an array |
| `LastLocator` | an image on which the skipped last locator matters | functions and lemmas |
| `Recovery` | resolution, scan and election together | methods |
| `Election` | choosing the one candidate that moves | method over a list of observations |
| `CommandLine`, `Environment` | the command-line and environment printers and their readers | methods, with the readers as functions |
| `Launch` | starting a program at most once | classes for the child and the system |
| `FixedUtf8` | truncation into a fixed buffer | method over an array |

How the models are built:

- The protocols are transition systems: `Enabled` says which step can happen, `Next` where it leads, a run is a list of
  states joined by enabled steps, and every theorem is about all runs. One step is one atomic access of the program.
- The outcome of every system call is a free choice of the step, or an arbitrary value inside a method.
- The methods keep the loops of the program, and are proved against predicates that describe their result without the
  loop. `Recovery.LocateHidThread` composes the byte search, the resolver, the scan and the election.

Where the code does less than one might expect, the model follows the code:

- A true answer of the lock-free blocking test can be torn. `Ownership.TornAnswerHappens` gives the run,
  `Ownership.TornAnswerExactly` says exactly when it happens, and `Ownership.TornAnswerNeedsBothReleases` what such a run
  must contain. A false answer is exact.
- A program name that needs quotes and holds a quote or ends in a backslash is not read back by the special rule that
  `CommandLineToArgvW` has for the first argument. `CommandLine.ProgramNameRule` gives the exact condition.
- A complete object locator that ends exactly at the end of the image is skipped, because the bound is
  `offset >= limit`; `Resolver.IsLocator` states it with that bound. Skipping can lose the only layout, and it can also
  hide a second one, so that an image is accepted that should be refused. `LastLocator.SkippingCanAccept` gives such an
  image, `Resolver.SkippedLocatorExactly` says exactly when it happens, and `Resolver.NothingIsSkipped` that it does not
  if the image does not end in a locator of the class.
- Revocation can close the wrong object. The barrier is free while a duplicate is probed, so a hooked close of a stale
  handle number that the duplicate happens to have removes the pin; and a close that bypasses the hook can change the
  handle inside the second critical section. `Revocation.StaleCloseCanMisleadTheSweep` and
  `Revocation.BypassCanMisleadTheSweep` give the runs, `Revocation.WrongCloseNeedsTampering` shows that nothing else
  can, and `Revocation.WrongCloseExactly` says exactly when it happens.
- `RescanTimer.TrueMeansATimerExists` needs the callers' transition lock, and
  `RescanTimer.OverlappingCallsCanLieAboutTheTimer` shows that it does.

UTF-8 is that of section 3 of RFC 3629. The image fields are those of the sections "COFF File Header", "Optional Header
(Image Only)" and "Section Table (Section Headers)" of the Microsoft PE Format specification.

## Model

| member | source | states |
|---|---|---|
| Ownership.OwnershipConserved | crates/steam-input-gate/src/lib.rs:1967-2066 | In every reachable state of any number of interleaved connections, each counter equals the number of connections that hold its kind, and is never negative. |
| Ownership.ServedAsAsked | crates/steam-input-gate/src/lib.rs:1967-2000 | A connection gets what its first message asked for and nothing else: a lease, counted once before it finishes unless installation failed; a claim, counted once; or no change of ownership at all. |
| Ownership.OwnershipWasAsked | crates/steam-input-gate/src/lib.rs:1971-1994 | Whoever was counted had asked for that kind. |
| Ownership.SubtractedOnce | crates/steam-input-gate/src/lib.rs:2012-2049 | A connection is counted at most once per kind; while it holds, it has not been subtracted, and once it does not hold, additions and subtractions are equal, whether it ended by release, by a wrong message or by end of file. |
| Ownership.HolderLeaves | crates/steam-input-gate/src/lib.rs:2012-2049 | Once its pipe ended, by release, by another message or by end of file, a holder never holds again and finishes only after it was subtracted once. |
| Ownership.NobodyIsStuck | crates/steam-input-gate/src/lib.rs:1949-2066 | While some connection does not wait for its client, some worker can make a step. |
| Ownership.RankFalls | crates/steam-input-gate/src/lib.rs:1949-2066 | Every worker step brings its connection closer to waiting for its client or to its end, and moves no other connection. |
| Ownership.SettleTracksBlocking | crates/steam-input-gate/src/lib.rs:1975-1993 | The edge decision at the end of a transition appends exactly one sweep, with its close function, when blocking started, exactly one rescan when it ended, and nothing otherwise. |
| Ownership.EdgesAreExact | crates/steam-input-gate/src/lib.rs:1975-2048 | Sweeps and rescans strictly alternate, starting with a sweep; whenever no transition is in progress, there is exactly one of them for every change of blocking in the run, and sweeps minus rescans is 1 if blocking holds and 0 otherwise; the early return that suppresses a rescan while blocking is never taken. |
| Ownership.EdgesCountFlips | crates/steam-input-gate/src/lib.rs:1975-2048 | In every reachable state the edges are as many as the changes of blocking, less the one whose worker is still to decide. |
| Ownership.RescanIsNeverSuppressed | crates/steam-input-gate/src/lib.rs:1986-1994 | When a claim asks for a rescan, blocking has ended. |
| Ownership.ReportOfSuccess | crates/steam-input-gate/src/lib.rs:1140-1257 | An installation that succeeds has published every required trampoline. |
| Ownership.InstallationIsExact | crates/steam-input-gate/src/lib.rs:1140-1257 | An installation succeeds if and only if MinHook, the modules and the queries are there, every required hook was found, created and queued, and the queue was applied. |
| Ownership.LeaseImpliesHooks | crates/steam-input-gate/src/lib.rs:1971-1984 | Whenever the lease count is positive, installation has succeeded and every required trampoline is published, so a sweep has its close function. |
| Ownership.HooksPrecedeLeases | crates/steam-input-gate/src/lib.rs:2140-2151 | Installation is attempted at most once, and no lease is counted before it succeeded. |
| Ownership.VerdictIsRemembered | crates/steam-input-gate/src/lib.rs:2140-2151 | The first verdict is final in every later state, and after a failure no lease is ever counted. |
| Ownership.FirstReportDecides | crates/steam-input-gate/src/lib.rs:2146-2151 | The verdict is the answer of the first attempt, in every later state. |
| Ownership.FalseAnswerIsRight | crates/steam-input-gate/src/lib.rs:379-382 | A lock-free test that answers false was right at some instant inside the call, for every interleaving of its two loads. |
| Ownership.BlockedCallAnswersTrue | crates/steam-input-gate/src/lib.rs:379-382 | A test that runs wholly while blocking holds answers true. |
| Ownership.TornAnswerNeedsBothReleases | crates/steam-input-gate/src/lib.rs:379-382 | A true answer although blocking held at no instant of the call needs, inside the call, the release of the last lease and then of the last claim. |
| Ownership.TornAnswerExactly | crates/steam-input-gate/src/lib.rs:379-382 | For a call that answers true, blocking held at no instant of it if and only if a claim was held at the first load and no step inside the call started blocking, by counting the first lease or by subtracting the last claim. |
| Ownership.TornAnswerHappens | crates/steam-input-gate/src/lib.rs:379-382 | A concrete run in which the test answers true although blocking held at no instant of it. |
| Ownership.DropNeedsGivingBack | crates/steam-input-gate/src/lib.rs:2037-2041 | A counter that falls from positive to zero does so in a step by which a holder of that kind gives its holding back. |
| Ownership.StepKeepsInv | crates/steam-input-gate/src/lib.rs:1949-2066 | Every step of every connection keeps the invariant that ties counters, ledger, locks, hooks and edges together. |
| HandleTable.HandleTable.constructor | crates/steam-input-gate/src/lib.rs:391-397 | A new table holds nothing, for an arbitrary hash. |
| HandleTable.HandleTable.Gate | crates/steam-input-gate/src/lib.rs:391-397 | The payload's table, with its own hash, starts empty and valid. |
| HandleTable.MixIsInjective | crates/steam-input-gate/src/lib.rs:391-397 | Before the reduction to the table's size, handles that differ above their two low bits hash differently. |
| HandleTable.HandleTable.Lookup | crates/steam-input-gate/src/lib.rs:399-418 | Answers exactly what the abstract map holds; an absent handle is unknown and an untrackable one is never HID. |
| HandleTable.HandleTable.Remember | crates/steam-input-gate/src/lib.rs:420-471 | Sets only its own key; the update is lost exactly when the key is new and its 16-slot window holds 16 other live keys; no slot becomes empty again. |
| HandleTable.FullWindowIsCrowded | crates/steam-input-gate/src/lib.rs:440-471 | An update can only be lost when the table holds at least sixteen handles. |
| HandleTable.HandleTable.Forget | crates/steam-input-gate/src/lib.rs:473-517 | Under any writes of other threads between its two locks, removes its own key and nothing else if the key was present at the first lock, and changes nothing otherwise. |
| HandleTable.HandleTable.Present | crates/steam-input-gate/src/lib.rs:473-497 | The read-locked phase answers membership in the map. |
| HandleTable.HandleTable.Remove | crates/steam-input-gate/src/lib.rs:498-517 | The write-locked phase removes exactly its key and keeps every other key findable. |
| HandleTable.HandleTable.Reclassify | crates/steam-input-gate/src/lib.rs:420-471 | Overwriting a classification keeps the HID count equal to the number of HID slots. |
| HandleTable.ScanMissesNothing | crates/steam-input-gate/src/lib.rs:399-418 | A probe that stops at an empty slot or after 16 slots without seeing a key proves that the key is in no slot. |
| HandleTable.WriteKeepsPlacement | crates/steam-input-gate/src/lib.rs:420-471 | A write that leaves no slot empty and puts its key into its own window keeps every key within 16 slots of its hash with no empty slot before it. |
| HandleTable.UnnamedKeySurvives | crates/steam-input-gate/src/lib.rs:473-517 | Writes of other threads leave every key they do not name as it was. |
| HandleTable.AbsentStaysAbsent | crates/steam-input-gate/src/lib.rs:473-517 | A key that was absent at the first lock is present later only if another thread remembered it in between. |
| Revocation.RevocationClosesTheProbedObject | crates/steam-input-gate/src/lib.rs:1383-1463 | In every interleaving with closes, opens and number reuse, the object a revoked handle names when it is closed is the object that was probed as HID, provided no other thread closed the duplicate's number between the probe and the second lock and no close bypassed the hook inside the second critical section. |
| Revocation.WrongCloseNeedsTampering | crates/steam-input-gate/src/lib.rs:1441-1458 | A handle closed on another object than the probed one shows such a step between that very entry's probe and its close. |
| Revocation.WrongCloseExactly | crates/steam-input-gate/src/lib.rs:1441-1458 | A successful close hits another object than the probed one if and only if, since the probe, a number that the sweep relied on was reused, the last time for another object. |
| Revocation.RevokedCountIsExact | crates/steam-input-gate/src/lib.rs:1446-1462 | The reported count is the number of successful closes of this sweep. |
| Revocation.DuplicatesAreClosedOnce | crates/steam-input-gate/src/lib.rs:1396-1461 | On every path and whatever other threads do, each duplicate gets exactly one close; if nobody else closed a duplicate's number while the sweep had it, each of these closes hit the duplicated object. |
| Revocation.StrayUnpinNeedsAClose | crates/steam-input-gate/src/lib.rs:1396-1461 | A close of a duplicate that hits another object shows another thread's close of that number while the sweep had it. |
| Revocation.StrayUnpinExactly | crates/steam-input-gate/src/lib.rs:1396-1461 | The close of a duplicate misses the duplicated object if and only if the last step that moved the duplicate's number while the sweep had it was another thread's close, or an open of another object. |
| Revocation.RefusedDuplicateIsSafe | crates/steam-input-gate/src/lib.rs:1399-1427 | A duplicate that the first comparison refused is closed inside the barrier: only an unhooked close of its number can make that close go astray. |
| Revocation.SweepClosesWhatItCan | crates/steam-input-gate/src/lib.rs:1383-1463 | A finished sweep closed every enumerated handle that was open on one object when it started, if its entry has the type index of files, the calls for the entry succeeded, it was probed as HID, and other threads left it and its duplicate alone. |
| Revocation.FileTypeIsLearned | crates/steam-input-gate/src/lib.rs:1429-1439 | If files, and no others, have one type index, a sweep learns that index or none, and probes only entries that have it. |
| Revocation.OnlyFilesAreRevoked | crates/steam-input-gate/src/lib.rs:1396-1459 | Only enumerated handles with the type index of files are revoked. |
| Revocation.OtherHandlesSurvive | crates/steam-input-gate/src/lib.rs:1396-1461 | A handle that no other thread closed during a sweep is still open on the same object, unless it was revoked. |
| Revocation.SweepMoves | crates/steam-input-gate/src/lib.rs:1396-1461 | A sweep that does not wait for hooked closes can make a step, whatever the foreign calls answer. |
| Revocation.EveryEntryIsTaken | crates/steam-input-gate/src/lib.rs:1396-1396 | A sweep takes every enumerated entry. |
| Revocation.BypassCanMisleadTheSweep | crates/steam-input-gate/src/lib.rs:1443-1459 | A concrete run in which one close that bypasses the hook in the second critical section makes the sweep close another object. |
| Revocation.StaleCloseCanMisleadTheSweep | crates/steam-input-gate/src/lib.rs:870-877 | A concrete run with hooked closes only, in which a close of a stale number hits the duplicate outside the barrier: the sweep closes an object that was not probed, and its close of the duplicate hits another object. |
| Revocation.HookedCloseCloses | crates/steam-input-gate/src/lib.rs:870-877 | The close hook is left only after the number it was entered for was closed. |
| Revocation.RunKeepsInv | crates/steam-input-gate/src/lib.rs:1383-1463 | In every reachable state no hooked close runs while the sweep holds the barrier, a duplicate differs from its original, every revoked handle was probed as HID, and the counts are right. |
| RescanTimer.AtMostOneTimer | crates/steam-input-gate/src/lib.rs:1778-1789 | At most one timer thread ever exists, even when calls overlap. |
| RescanTimer.TrueMeansATimerExists | crates/steam-input-gate/src/lib.rs:1769-1795 | Because callers hold the transition lock, a call that returned true left a timer thread. |
| RescanTimer.ArmedIsWatched | crates/steam-input-gate/src/lib.rs:1797-1815 | With the mutex free and a deadline armed, no timer sleeps without a deadline, and a timed sleep is for the latest deadline; as callers hold the transition lock, that timer exists: no wakeup is lost. |
| RescanTimer.ArmsAreNotLost | crates/steam-input-gate/src/lib.rs:1790-1828 | The last arm is still armed or was consumed by the last expiry; expiries consume distinct arms, in order, never before their deadlines. |
| RescanTimer.FireConsumesTheLatestArm | crates/steam-input-gate/src/lib.rs:1816-1823 | Each expiry consumes the arm that is the latest at that instant, not before its deadline, and leaves nothing armed. |
| RescanTimer.EveryExpiryIsAnswered | crates/steam-input-gate/src/lib.rs:1816-1824 | Every expiry led to exactly one request for discovery, or to none because blocking held, except one that is still deciding. |
| RescanTimer.RequestSawNoBlocking | crates/steam-input-gate/src/lib.rs:1818-1823 | A request for discovery follows a test at whose deciding load blocking did not hold. |
| RescanTimer.DeclineSawBlocking | crates/steam-input-gate/src/lib.rs:1818-1823 | An expiry is declined only after its test saw a lease, and then no claim. |
| RescanTimer.TestFollowsBlocking | crates/steam-input-gate/src/lib.rs:1818-1823 | A test that runs wholly while blocking holds declines, and one that sees no lease at its first load requests. |
| RescanTimer.AnswersAreCounted | crates/steam-input-gate/src/lib.rs:1821-1823 | Requests and declined expiries are counted exactly where they happen. |
| RescanTimer.ArmWasStored | crates/steam-input-gate/src/lib.rs:1790-1792 | Every armed deadline is 2.2 seconds after the instant at which it was stored. |
| RescanTimer.TrueMeansArmed | crates/steam-input-gate/src/lib.rs:1787-1794 | Arms and true answers are equally many between calls: a call answers true exactly when it armed a deadline. |
| RescanTimer.FalseMeansNoThread | crates/steam-input-gate/src/lib.rs:1778-1789 | A call answers false only after its own attempt to make the thread failed. |
| RescanTimer.CallsMove | crates/steam-input-gate/src/lib.rs:1769-1795 | A call that does not wait for the mutex can make a step, and each brings it closer to its answer. |
| RescanTimer.DueExpires | crates/steam-input-gate/src/lib.rs:1797-1828 | With a deadline armed that has passed and no call inside, an expiry happens within five steps of the timer thread, whatever the clock and the counters do in between, as long as no call begins. |
| RescanTimer.DueIsEnabled | crates/steam-input-gate/src/lib.rs:1797-1828 | In such a state the timer thread exists and can always make a step. |
| RescanTimer.OverlappingCallsCanLieAboutTheTimer | crates/steam-input-gate/src/lib.rs:1778-1794 | A concrete run of two overlapping calls in which one returns true although no timer thread exists: the transition lock is what makes the answer right. |
| Bootstrap.ReadyMeansComplete | crates/steam-input-gate/src/proxy.rs:196-267 | Initialization runs at most once, and the ready flag is up only if every required slot of a proxied vector is filled. |
| Bootstrap.VerdictIsExact | crates/steam-input-gate/src/proxy.rs:196-267 | Initialization answers true if and only if the vector is proxied and every required slot was filled, whatever optional exports are missing. |
| Bootstrap.EveryExportIsTried | crates/steam-input-gate/src/proxy.rs:186-257 | Every export of the vector is looked up before the worker decides, and its slot is filled exactly if it was found. |
| Bootstrap.PublicationIsPermanent | crates/steam-input-gate/src/proxy.rs:165-184 | The ready flag never goes down, no filled slot is emptied, and a verdict is final. |
| Bootstrap.FailureIsForever | crates/steam-input-gate/src/proxy.rs:211-267 | After a failed initialization no export call ever leaves its fallback. |
| Bootstrap.ForwardedCallsHaveTargets | crates/steam-input-gate/src/proxy.rs:277-306 | A call reaches a real target only through a published, non-null slot. |
| Bootstrap.GatedCallsSawNoBlocking | crates/steam-input-gate/src/proxy.rs:277-306 | A call of one of the four exports that report input passes its gate only after its own blocking test answered false, and blocking did not hold at the deciding load, which lies inside the call. |
| Bootstrap.FallbackIsJustified | crates/steam-input-gate/src/proxy.rs:289-305 | A call answers its fallback only because forwarding was not ready, its slot was empty, or, for the four exports that report input, it saw a lease and then no claim; any other call reaches its target. |
| Bootstrap.CallsAnswer | crates/steam-input-gate/src/proxy.rs:289-305 | A call that has not answered can make a step, and each brings it closer to its answer. |
| Bootstrap.WorkerMoves | crates/steam-input-gate/src/proxy.rs:211-267 | The worker is never stuck, whatever loading and looking up answer. |
| ByteSearch.SameLaneIsFlagged | crates/steam-input-recovery/src/lib.rs:938-952 | The word-at-a-time mask flags every lane that holds the byte, whatever borrow reaches it. |
| ByteSearch.LowestLane | crates/steam-input-recovery/src/lib.rs:945-957 | Each turn takes the lowest flagged lane and clears that lane alone. |
| ByteSearch.ForEachByte | crates/steam-input-recovery/src/lib.rs:938-965 | Reports exactly the positions that hold the byte, each once, in ascending order. |
| ByteSearch.FindUnique | crates/steam-input-recovery/src/lib.rs:967-992 | The only occurrence of a non-empty needle, overlaps included, or else the true number of occurrences; an empty needle is rejected with count 0. |
| ByteSearch.CountOccurrences | crates/steam-input-recovery/src/lib.rs:981-991 | The hits that continue as a whole needle are counted exactly, and the one kept is an occurrence. |
| Resolver.SectionsAreTheEntries | crates/steam-input-recovery/src/lib.rs:693-714 | The sections are exactly what the table entries describe: from the entry's address to the end of the larger of its two sizes, at most the last 32-bit address; not empty and inside the declared image; code exactly if bit 5 of the entry's last byte is set. |
| Resolver.ExecuteFlag | crates/steam-input-recovery/src/lib.rs:704-711 | Bit 29 of the characteristics is bit 5 of their last byte. |
| Resolver.ParsePeSections | crates/steam-input-recovery/src/lib.rs:662-719 | Succeeds if and only if the snapshot is a loaded PE32+ image whose whole section table is present and that has an executable section, with its sections in table order. |
| Resolver.FindCompleteObjectLocators | crates/steam-input-recovery/src/lib.rs:721-761 | Returns once and nothing else every complete object locator of the class, except one that ends exactly at the image's end. |
| Resolver.CollectVtables | crates/steam-input-recovery/src/lib.rs:566-591 | Returns, once each, exactly the vtables whose preceding aligned word points to a locator that was found and whose first entry is executable; fails exactly when such a locator's address does not fit 64 bits. |
| Resolver.ExecutableEntryIsCode | crates/steam-input-recovery/src/lib.rs:780-796 | A table passes the test of its first entry exactly if that entry points into an executable section. |
| Resolver.FindU64 | crates/steam-input-recovery/src/lib.rs:994-1000 | Returns exactly the 8-aligned offsets that hold the value. |
| Resolver.UniqueVtable | crates/steam-input-recovery/src/lib.rs:763-778 | Names a vtable if and only if it is the only one at the object offset. |
| Resolver.MatchScheduler | crates/steam-input-recovery/src/lib.rs:835-878 | Names fields if and only if they are the only ones for which some increment of a counter is followed, within eight instructions, by a store of a deadline loaded within 48 instructions before, all plainly addressed off one base register. |
| Resolver.OperandsAre | crates/steam-input-recovery/src/lib.rs:880-930 | The operand readers answer a place exactly for an increment of it by one, a load from it and a store to it, plainly addressed. |
| Resolver.ExecutableEndIsFirst | crates/steam-input-recovery/src/lib.rs:798-803 | The end used for a method is that of the first executable section, in table order, that contains it. |
| Resolver.UpToReturnIsFirst | crates/steam-input-recovery/src/lib.rs:825-833 | Decoding keeps everything through the first return, or everything when there is none. |
| Resolver.AnalyzeSchedulerMethod | crates/steam-input-recovery/src/lib.rs:805-878 | For any decoder: the fields of the method's instructions, bounded by its section, 128 KiB and the image, if they are unique. |
| Resolver.FindSchedulerLayouts | crates/steam-input-recovery/src/lib.rs:602-660 | Returns once each exactly the layouts that some secondary vtable and one of its eight slots yield. |
| Resolver.FindDescriptor | crates/steam-input-recovery/src/lib.rs:554-559 | Answers a descriptor if and only if the RTTI name occurs once, 16 bytes behind it; otherwise the error tells the true number of occurrences or that the descriptor is out of range. |
| Resolver.ResolveRecoveryLayout | crates/steam-input-recovery/src/lib.rs:549-600 | Succeeds with a layout if and only if the image proves it by the locators that the search sees: supported image, one RTTI name, one offset-0 vtable, and one layout over all secondary vtables and slots. Its worker and offsets are then bounded. If the image does not end in a locator of the class, the layout is the only one over all locators. Every error says which of these was not proven. |
| Resolver.SkippedLocatorExactly | crates/steam-input-recovery/src/lib.rs:733-737 | An accepted layout is the only one over all locators, the one that ends the image included, if and only if that locator's address fits 64 bits, none of its vtables is a second offset-0 vtable, and none of their slots yields another layout. |
| Resolver.NothingIsSkipped | crates/steam-input-recovery/src/lib.rs:721-761 | If the image does not end in a locator of the class, an accepted layout is the only one over all locators. |
| LastLocator.SkippingCanAccept | crates/steam-input-recovery/src/lib.rs:733-737 | A concrete image whose last bytes are a locator of the class: resolution accepts a layout of it, though over all locators it proves none. |
| Resolver.ResolutionIsUnique | crates/steam-input-recovery/src/lib.rs:525-548 | An image proves at most one layout. |
| Resolver.VtableOffsetIsUnique | crates/steam-input-recovery/src/lib.rs:566-591 | One vtable address cannot carry two object offsets. |
| Resolver.ProvenLayoutIsBounded | crates/steam-input-recovery/src/lib.rs:610-657 | A proven layout's worker lies in an executable section inside the image, its secondary offset is in 1..=0x100, its field offsets are at most 0x20000 beyond it, its deadline is 8-aligned in the subobject, and its two vtables differ. |
| MemoryScan.FindVtablePairs | crates/steam-input-recovery/src/lib.rs:458-492 | Reports exactly the 8-aligned addresses at which the window shows both words, and none when the primary is null. |
| MemoryScan.NextScanStart | crates/steam-input-recovery/src/lib.rs:507-523 | The scan always moves forward and stays inside the region; a complete read continues no more than the overlap before its end, and a short one at the page after the byte that could not be read. |
| MemoryScan.PagedQueriesTile | crates/steam-input-lease/src/lib.rs:934-952 | Queries that report the asked address's page and the rest of its region meet what the scan demands of a memory. |
| MemoryScan.NothingIsSkipped | crates/steam-input-recovery/src/lib.rs:497-523 | Whatever the read returned, no match that begins before the next chunk reaches beyond the bytes that were read: the overlap suffices and an unreadable page hides nothing. |
| MemoryScan.WindowShowsMatches | crates/steam-input-recovery/src/lib.rs:308-320 | The bytes that were transferred show exactly the matches that lie inside them. |
| MemoryScan.ScanRegion | crates/steam-input-recovery/src/lib.rs:300-333 | Adds exactly the region's matches, whatever stale bytes the reused buffer holds. |
| MemoryScan.NothingBeyond | crates/steam-input-recovery/src/lib.rs:293-338 | When the walk over the regions stops, every region that can hold a candidate has been scanned. |
| MemoryScan.CollectCandidates | crates/steam-input-recovery/src/lib.rs:277-338 | Terminates with exactly the matches of the visited regions of committed, readable, private memory. |
| MemoryScan.HidThreadIsLive | crates/steam-input-recovery/src/lib.rs:244-269 | Answers whether both vtable words read back and the deadline's bits can be read and are those of -1.0, of negative zero, or below those of 1e12. |
| Binary64.PlausibleBits | crates/steam-input-recovery/src/lib.rs:262-267 | The test on the number itself, finite and -1 or in [0, 1e12), passes exactly those bit patterns. |
| MemoryScan.ScannedIs | crates/steam-input-recovery/src/lib.rs:172-187 | A region is scanned exactly if it is committed and private and neither of the two page flags is set. |
| MemoryScan.FindLiveHidThreads | crates/steam-input-recovery/src/lib.rs:271-343 | Returns, in ascending order without duplicates, exactly the visited 8-aligned addresses that pass the liveness test and whose pair bytes are all readable inside one private region, whichever base at or below the asked address a query reports. |
| MemoryScan.ResolvedPairFits | crates/steam-input-recovery/src/lib.rs:282-333 | Every resolved layout meets the bound that the overlap argument needs. |
| MemoryScan.ResolveAndScan | crates/steam-input-lease/src/lib.rs:1155-1161 | Resolution followed by the scan either fails because no layout is proven or finds exactly the live objects of the one layout that is. |
| Recovery.LocateHidThread | crates/steam-input-lease/src/lib.rs:1030-1064 | Names an address if and only if it is the only live object of the one layout that the image proves, or the one of several that the election singles out. |
| Recovery.Choose | crates/steam-input-gate/src/lib.rs:1649-1666 | Among live objects, a sole one is taken without an election, none is named when there is none or the election does not decide, and otherwise the elected one is. |
| Election.SelectProgressing | crates/steam-input-recovery/src/lib.rs:150-168 | Names a candidate if and only if it is the only one that differs. |
| Election.ElectProgressing | crates/steam-input-recovery/src/lib.rs:419-441 | Ends at the first observation that decides; the nudge is posted once, and only after a readable first observation. |
| Election.OutcomeIsUnique | crates/steam-input-recovery/src/lib.rs:419-441 | The observations determine when the election ends and its outcome. |
| Election.OnlyTheLiveOneIsElected | crates/steam-input-recovery/src/lib.rs:419-441 | If every candidate but one is frozen, no other is ever elected. |
| Election.TheLiveOneIsElected | crates/steam-input-recovery/src/lib.rs:419-441 | And that one is elected at the first observation that shows it moving, if all are readable until then. |
| Election.UnreadableNamesNobody | crates/steam-input-recovery/src/lib.rs:419-441 | An unreadable observation before any decision ends the election with nobody named. |
| CommandLine.WideCommand | crates/steam-input-lease/src/lib.rs:714-737 | Accepts a command if and only if it has a non-empty program name and no argument holds a NUL; otherwise the error names the first offending argument or the missing program. |
| CommandLine.QuoteArgument | crates/steam-input-lease/src/lib.rs:1458-1488 | The loop with its backslash counter appends the quoted form of the argument. |
| CommandLine.QuotedOnlyIfNeeded | crates/steam-input-lease/src/lib.rs:1461-1470 | An argument is quoted exactly if it is empty or holds a blank, a line break, a vertical tab or a quote. |
| CommandLine.ReadQuoted | crates/steam-input-lease/src/lib.rs:1458-1488 | Reading one argument by the backslash and quote rules undoes quoting, under either historical reading of doubled quotes. |
| CommandLine.SplitUndoesJoined | crates/steam-input-lease/src/lib.rs:1555-1562 | Splitting the joined line gives back exactly the list, with empty arguments, backslash runs before quotes and trailing backslashes. |
| CommandLine.ProgramNameRule | crates/steam-input-lease/src/lib.rs:1555-1562 | Under the special rule for the program name the list comes back if and only if the name needs no quotes, or holds no quote and does not end in a backslash. |
| CommandLine.ProgramNameCanBeLost | crates/steam-input-lease/src/lib.rs:1555-1562 | A concrete program name that the special rule loses. |
| CommandLine.BuildCommandLine | crates/steam-input-lease/src/lib.rs:1555-1562 | The built line ends at its only NUL, and reading it back gives the command. |
| Environment.LeasedEnvironmentBlock | crates/steam-input-lease/src/lib.rs:1509-1527 | For every block, parsing the result gives the input's entries without the excluded variable, in order; the only double NUL is the end, also when nothing is left. |
| Environment.BlockIsReadBack | crates/steam-input-lease/src/lib.rs:1509-1527 | Parsing a written block gives back its entries, and its only double NUL is its end. |
| Environment.WithoutIsStorable | crates/steam-input-lease/src/lib.rs:1509-1527 | What filtering keeps holds no entry of the excluded name, in any ASCII case. |
| Environment.NamedIsExclusion | crates/steam-input-lease/src/lib.rs:1512-1517 | An entry is dropped exactly if the part before its first `=`, or all of it, spells the excluded name in any ASCII case, so that a longer name is kept. |
| Environment.FilteringIsIdempotent | crates/steam-input-lease/src/lib.rs:1509-1527 | Filtering a filtered block changes nothing. |
| Launch.System.LaunchAndWait | crates/steam-input-lease/src/lib.rs:1549-1662 | For every combination of outcomes of the system calls: an error means the root was never resumed, success means it was resumed once, inside its job, with the given line and environment, that its tree emptied or was told to end, and answers the exit code the system gave, or the abort code; a created root that was not started is told to end. |
| Launch.System.Start | crates/steam-input-lease/src/lib.rs:1549-1610 | The root runs once every call succeeded, and an error names the first call that failed. |
| Launch.System.WaitForTree | crates/steam-input-lease/src/lib.rs:1613-1660 | After the resume the wait ends with the tree empty or told to end, never with an error, and answers the exit code the system gave, or the abort code. |
| Launch.Child.AbortUnstarted | crates/steam-input-lease/src/lib.rs:1490-1507 | An unstarted root is always told to end. |
| Launch.System.RunWrapped | crates/steam-input-lease/src/lib.rs:470-490 | An error means nothing was started; release is attempted exactly once after every successful acquire; the one launch made under a lease is a leased one and its exit code the answer; an unlaunchable command is refused before any acquire. |
| Launch.System.RunUnleased | crates/steam-input-lease/src/lib.rs:705-711 | Makes exactly one launch of a launchable command, not a leased one, and answers its exit code exactly if it ran. |
| Launch.System.RunCommand | crates/steam-input-lease-cli/src/main.rs:163-214 | Over the leased and the unleased attempt the program is started at most once; a launchable command is launched without a lease unless its leased launch ran; the answer is the exit code of the launch that ran, or 1; every acquire is followed by a release attempt. |
| FixedUtf8.WriteFixedUtf8 | crates/steam-input-lease-ffi/src/lib.rs:179-190 | Leaves the encoding of the longest whole-character prefix of the NUL-free text that fits in the capacity minus one, then a NUL, with no earlier NUL; what lies behind is untouched. |
| FixedUtf8.DecodeAllUndoesEncodeAll | crates/steam-input-lease-ffi/src/lib.rs:179-190 | What is kept reads back as the kept characters. |
| FixedUtf8.Truncate | crates/steam-input-lease-ffi/src/lib.rs:179-190 | Walking back from the limit stops at the end of the last whole character that fits. |
| FixedUtf8.FittingIsExact | crates/steam-input-lease-ffi/src/lib.rs:179-190 | Exactly the prefixes of at most that many characters fit the limit. |
| FixedUtf8.BoundaryIsPrefix | crates/steam-input-lease-ffi/src/lib.rs:179-190 | The lead-byte test accepts exactly the ends of whole characters. |

## Left out

- Pipes, tokens, security descriptors, process discovery, injection, window messages and the SDL refresh: foreign calls. Where a model needs one, its outcome is arbitrary.
- MinHook and the instruction decoder: a hook call succeeds or fails freely, and the decoder is an arbitrary function from bytes to instructions. Of an instruction only the parts the scheduler match reads are modelled.
- Forwarding of detour arguments, denied opens and the enumeration of XInput modules: no state beyond the models.
- Reading the payload's startup trace, parsing of launcher options, classification of a module name, the C header and the .NET bindings: glue with only easy properties.
- Physical time: the timer has a clock that only ticks, the election as many observations as the clock leaves time for, and a child some finite life.
- Counters beyond the range of `i32`, and recovery from poisoned locks: neither is assumed to occur.
- Freedom of the handle table from stale entries: an open is remembered after it returns, so a sweep may close the handle in between, and the code does not keep this.
- Full linearizability of the lock-free blocking test: a torn true answer exists.
- "Scheduled" implying a rescan at that release: the last lease may be released under a claim, so the code does not keep this.
- Ownership.FalseAnswerIsRight: takes the two loads of the blocking test as sequentially consistent with the counter changes, while the program uses acquire loads of two atomics; reordering by the memory model is not part of this model. The same holds for `BlockedCallAnswersTrue` and for the gate of `Bootstrap`.
- Revocation.SweepClosesWhatItCan: about the entries the kernel enumerated; choosing between the two enumerations, and an enumeration that fails, are not modelled. A probe is one step on whatever its number names, and fails on a number that is not open.
- Memory that changes during a scan: the exactness of the scan is about fixed memory, and regions are assumed to tile the address space below its end.
- Wrap-around of the module base plus an offset: addresses of a loaded module do not reach the end of the address space.
- MemoryScan.FindLiveHidThreads: requires the pair to fit one chunk, which every resolved layout does by `MemoryScan.ResolvedPairFits`; sorting and removal of duplicates are one insertion sort.
- Resolver.ParsePeSections: says that a failure is a failure, and not which of the header checks found it first.
- The launcher's log: written on a best effort, without effect on what is started.
- What the host makes of a release response, recovery outcomes included: the launch model only needs that a release may fail.
- A read that reports more bytes than it was asked for: `MemoryScan.Read` reports what it delivered, so the clamp that guards against it never acts.
- Environment blocks of a caller other than the process itself, and Unicode case folding: names are compared in ASCII case, as the code does.
