# Verified model of the deputyOS device tools

deputyOS is an appliance: `deputyctl` runs on the device, `deputyos-track` follows upstream
releases, and `deputyos-desktop` manages local instances. This project models the parts of
them whose correctness is an argument over many steps, many inputs or several functions, and
proves it. `dafny verify dfyconfig.toml` checks everything.

Code that changes things step by step is a method or a class, proved equal to a function of
the old state; the properties are lemmas about that function. Code made of expressions is
functions. The environment (what a copy leaves behind, which port the system offers, whether a
probe answers, where a machine stops) is a parameter, and the results quantify over it.

| component | files |
|---|---|
| age recovery identities: Bech32 | `BitXor`, `Bech32Step`, `Bech32Checksum`, `Bech32Groups`, `Bech32`, `Bech32Vector` |
| UTC dates, timestamps, spending caps | `Calendar`, `Decimal`, `Timestamp`, `TimestampText`, `CostLedger` |
| A/B updates, rollback, boot watchdog | `AbSlots`, `AbDevice`, `AbAnswers`, `AbRollback`, `AbMachine`, `GrubDefault` |
| backup bundle and transactional restore | `FileTree`, `Restore`, `RestoreSafety`, `RestoreRuns`, `RestoreCommand`, `Backup` |
| tunnel stream multiplexer | `Tunnel`, `TunnelSafety`, `TunnelRuns`, `TunnelRequests`, `TunnelIds`, `TunnelDrops`, `TunnelReuse` |
| manifest version editor | `TextLines`, `PinnedVersion`, `PinnedVersionLens`, `PinnedVersionSite` |
| secrets file | `TextLines`, `SecretsEnv`, `SecretsShell` |
| release order, twice, and the releases a device accepts | `Ordering`, `ReleaseVersion`, `ReleaseText`, `ReleaseRuns`, `TrackedVersion`, `ReleaseNumbers` |
| hook error tail, service reconciler | `StderrTail`, `Reconcile` |
| desktop instance registry | `InstanceRegistry`, `InstanceOps`, `InstanceRuns` |

## The main results

- **Bech32.** One checksum step is linear over GF(2) and has a trivial kernel, so any two sequences
  that differ only within six consecutive symbols have different checksums whatever surrounds the
  window; a created checksum is the one six-symbol suffix that validates; the shifts and masks
  compute the residue of the standard's polynomial, and its vector comes out; decoding an encoded
  identity gives back prefix and groups; a change within a window of the text is refused, fails the
  checksum, or brings in a separator and decodes under a longer prefix.
- **Calendar.** The closed era formula is a day-by-day walk of the calendar, for every day, and is a
  bijection with the valid dates from 1970 on. Printed timestamps sort as instants exactly up to the
  year 10000 and read back field by field, and the two prefix sums are calendar sums.
- **A/B slots.** For every outcome, an update of a provisioned device completes exactly when the
  format, every step and the bytes are good, and is refused before anything is touched for another
  format or a slot outside the two roots. Over every run the record stays consistent, and over runs
  of careful commands with interruptions the good image survives byte for byte. An update is safe to
  interrupt anywhere exactly when the next boot would have started the active slot. After the third
  boot of an unconfirmed update the record names the earlier slot again, but nothing selects it for
  boot: a loader that keeps its selection, as GRUB does, goes on booting the new slot through any
  number of boots, and an EFI firmware boots it once, even when it was confirmed. GRUB's file
  selects the wanted entry if and only if no later assignment of another one was overlooked. A
  rollback verifies its target if and only if the record's path is the target's, which over runs
  means that the watchdog made the last change. Under such a loader a confirmation after a boot
  records the version of the slot that booted if and only if no command was cut short between
  selection and record since the update.
- **Releases over runs.** For any set of valid releases on offer: the installed release never goes
  down, over any run, if and only if each has a suffix that ends in no white space or is nothing but
  white space; then it ends as the last and a newest one confirmed, as read back. Accepted releases
  can come back: the gate looks at the installed release only. They are sure to go on climbing if
  and only if none accepted is newer than the installed one. One release is newer than another
  exactly when its printed numbers are later, or equal and its suffix is later.
- **Restore.** For every plan with distinct destinations and no name that a move aside could
  produce, every nesting of the destinations and every failure: a failed restore loses nothing; it
  gives back exactly the original tree if and only if the failing destination was there, or nothing
  was left at it, or it lies under a destination already placed. Before the copy, a caller can be
  sure of it if and only if the first or the last of these holds. A successful restore keeps every
  earlier tree at a known place. A bundle holds the device's data, hooks, secrets file and session
  database exactly where each is there, and backup followed by restore brings every path of theirs
  back.
- **Tunnel.** For every interleaving, each task's frames form a prefix of `close` or of
  `accept data* close`, and local writes are the stream's data in order. Replies and requests still waiting
  are as many as the requests received, and pongs as many as pings. All runs of a history give an id
  one such conversation if and only if the history opens it at most once, and none lets a live
  stream of it miss data if and only if the history does not send the id data after it was opened,
  closed and opened again.
- **Editors, folds and orders.** The version editor's three lens laws, each as an exact condition,
  and exactly which line they act on; the secrets file's round trip and frame, and exactly which
  written values a shell reads back; the two version orders agree on every valid pair; stored
  failure counters are streaks and alone decide the exit code with the probes; registry names, ids
  and ports never collide, and over every run each record is its request's.

## Model

| member | source | states |
|---|---|---|
| `Bech32.Polymod` | deputyctl/src/agekey.rs:53-65 | the two nested loops compute the checksum residue, for values of any size |
| `Bech32Step.StepLinear` | deputyctl/src/agekey.rs:55-63 | one step is linear over GF(2) in accumulator and symbol together |
| `Bech32Step.ResidueLinear` | deputyctl/src/agekey.rs:53-65 | so is the whole checksum, for sequences of any length |
| `Bech32Step.StepFits` | deputyctl/src/agekey.rs:57-58 | the accumulator stays below 2^30 on 5-bit symbols |
| `Bech32Step.LowKernel` | deputyctl/src/agekey.rs:54-62 | the low five bits of the five generators are linearly independent |
| `Bech32Step.StepKernel` | deputyctl/src/agekey.rs:55-63 | a step maps only zero to zero, so with linearity it is injective on 30-bit words |
| `Bech32Checksum.BurstDetected` | deputyctl/src/agekey.rs:53-65 | sequences that differ only within six consecutive symbols have different residues, whatever precedes and follows |
| `Bech32Checksum.BurstRejected` | deputyctl/src/agekey.rs:53-89 | so no such change of a valid string is valid (BIP-173, Checksum) |
| `Bech32Checksum.ChecksumValid` | deputyctl/src/agekey.rs:79-89 | a created checksum validates, for every prefix and every data length |
| `Bech32Checksum.ChecksumUnique` | deputyctl/src/agekey.rs:79-89 | and it is the only six-symbol suffix that does |
| `Bech32Vector.StepWordIs` | deputyctl/src/agekey.rs:53-65 | one step with its shifts and masks is the same on words of six groups without any: the first group goes and the multiple of the generator polynomial it selects is added |
| `Bech32Vector.ResidueIs` | deputyctl/src/agekey.rs:53-65 | so the whole checksum is the residue for the standard's polynomial, coefficients 29, 22, 20, 21, 29 and 18 (BIP-173, Checksum) |
| `Bech32Vector.VectorEncodes` | deputyctl/src/agekey.rs:113-124 | no data under the prefix `a` encodes to `A12UEL5L` (BIP-173, Test vectors) |
| `Bech32.HrpExpansion` | deputyctl/src/agekey.rs:67-77 | the prefix expansion of BIP-173: two symbols for each byte around a zero, the first 32 times as heavy as the second |
| `Bech32.CreateChecksum` | deputyctl/src/agekey.rs:79-89 | the array filled in place is the checksum of the lemmas above |
| `Bech32Groups.ConvertBits8to5` | deputyctl/src/agekey.rs:93-109 | the loop with its unmasked 32-bit accumulator cuts the input's bit stream into fives |
| `Bech32Groups.GroupsAreBits` | deputyctl/src/agekey.rs:93-109 | ceil(8n/5) groups, whose bits are the input bits followed by zeros |
| `Bech32Groups.GroupsInjective` | deputyctl/src/agekey.rs:93-109 | different inputs give different groups |
| `Bech32.Encode` | deputyctl/src/agekey.rs:113-124 | groups, checksum, letters, upper case |
| `Bech32.Decode` | deputyctl/src/agekey.rs:129-142 | splits at the last `1` and looks every letter up, or refuses |
| `Bech32.DecodesExactly` | deputyctl/src/agekey.rs:129-142 | a text is decoded to a prefix and symbols if and only if, in either case, it spells a non-empty prefix, the separator and their letters |
| `Bech32.CharsetAt` | deputyctl/src/agekey.rs:113-124 | the alphabet has 32 letters, one for each group |
| `Bech32.RoundTrip` | deputyctl/src/agekey.rs:113-142 | decoding an encoding gives back any non-empty lower-case prefix and the groups with their checksum |
| `Bech32.EncodedValidates` | deputyctl/src/agekey.rs:113-142 | and those groups carry a valid checksum |
| `Bech32.EncodingInjective` | deputyctl/src/agekey.rs:113-124 | different prefixes or data never encode alike |
| `Bech32.CorruptionRejected` | deputyctl/src/agekey.rs:113-142 | for every text that differs from an encoded identity within six consecutive characters of its data part, and not in letter case alone: when the change brings in no separator it is refused or fails the checksum, else it is refused or decodes under a longer prefix |
| `Calendar.YearFormula` | deputyctl/src/cost.rs:787-790 | the nonlinear formula finds the year of the era and the day of that year |
| `Calendar.CivilNext` | deputyctl/src/cost.rs:781-798 | the next day's result is the next valid Gregorian date |
| `Calendar.CivilIsWalk` | deputyctl/src/cost.rs:781-798 | for every day the formula gives what a walk from 1970-01-01 reaches |
| `Calendar.DaysOfCivil` | deputyctl/src/cost.rs:781-798 | days-from-civil inverts it |
| `Calendar.CivilOfDays` | deputyctl/src/cost.rs:781-798 | every valid date from 1970 on is the date of exactly one day |
| `Calendar.CivilOrder` | deputyctl/src/cost.rs:781-798 | dates are ordered as their day numbers |
| `Timestamp.IsoOrder` | deputyctl/src/cost.rs:649-651 | before the year 10000, printed timestamps sort as the instants (RFC 3339, section 5.1) |
| `Timestamp.IsoPrefixes` | deputyctl/src/cost.rs:769-775 | ten characters agree exactly on the same UTC day, seven exactly in the same month |
| `Timestamp.OrderBreaks` | deputyctl/src/cost.rs:769-775 | the first instant with a five-digit year sorts before the one it follows |
| `Timestamp.OrderHoldsBelow` | deputyctl/src/cost.rs:649-651 | text order is time order below a bound if and only if the bound is at most the year 10000 |
| `TimestampText.IsoReads` | deputyctl/src/cost.rs:769-775 | before the year 10000 the six decimal fields of the text, read back at their places, are the date of the day and the time of the day, with the marks of RFC 3339 between them |
| `CostLedger.SumsAreCalendarSums` | deputyctl/src/cost.rs:316-331 | over rows stamped by this clock the two sums are the spend of the UTC day and of the calendar month |
| `CostLedger.TodayWithinMonth` | deputyctl/src/cost.rs:364-368 | a day's spend is at most its month's, whatever the rows' timestamps say |
| `CostLedger.CapsEscalate` | deputyctl/src/cost.rs:354-393 | recording more spend never lowers a cap state or the worst one |
| `CostLedger.DailyTripsMonthly` | deputyctl/src/cost.rs:364-393 | a tripped daily cap trips an enabled monthly cap that is no higher |
| `CostLedger.CapsExactly` | deputyctl/src/cost.rs:354-393 | for both caps: tripped if and only if the cap is positive and reached, a warning if and only if it is positive, not reached, and its percentage is; the worst of the two likewise |
| `AbSlots.StepConsistent` | deputyctl/src/rollback.rs:114-136 | swap, rollback, boot check and confirm each keep the record consistent: labels A and B, never both pending flags, fewer than three counted boots, the pending version that of the active slot |
| `AbSlots.RunConsistent` | deputyctl/src/watchdog.rs:16-134 | and so does every run of them |
| `AbSlots.RunQuiet` | deputyctl/src/watchdog.rs:16-134 | over every run, whatever the labels, a record with nothing pending has no pending version and no counted boot |
| `AbSlots.SettledRun` | deputyctl/src/watchdog.rs:40-44 | with nothing pending, boots and probes change nothing, however many |
| `AbSlots.PendingRun` | deputyctl/src/watchdog.rs:46-88 | with an update pending, exactly the third counted boot without a healthy probe flips the labels, and the versions stay |
| `AbSlots.UpdateWindow` | deputyctl/src/update.rs:491-515 | from the swap on: at the third unconfirmed boot the record names the earlier slot again, an earlier confirmation fixes the new one against any number of boots, and both versions stay |
| `AbSlots.UpdateKeepsGood` | deputyctl/src/update.rs:322-334 | an update keeps the last good slot if and only if no update is pending, which the version gate does not test |
| `AbSlots.GoodKept` | deputyctl/src/watchdog.rs:16-134 | over every run that never updates while pending nor gives the good slot up, its label and version stay |
| `AbSlots.GoodReachable` | deputyctl/src/watchdog.rs:51-76 | from anywhere in such a run, after three boots the record names the good slot again |
| `AbDevice.Device.RunCheck` | deputyctl/src/watchdog.rs:16-89 | the boot check in place: the whole new device state and the error |
| `AbAnswers.AutoFlagExactly` | deputyctl/src/watchdog.rs:51-76 | the record says that the watchdog rolled back if and only if its last change but counts and the end of a user's rollback was that |
| `AbAnswers.CheckRefused` | deputyctl/src/watchdog.rs:16-76 | a boot check fails if and only if it would roll back a record that names no slot, and then changes nothing |
| `AbAnswers.RollbackEnds` | deputyctl/src/watchdog.rs:30-38 | the boot after a user's rollback ends it and changes nothing else of the record |
| `AbDevice.Device.RunConfirm` | deputyctl/src/watchdog.rs:94-134 | the confirmation in place: the version is recorded, then the slot record, with a stop possible in between |
| `AbAnswers.ConfirmExactly` | deputyctl/src/watchdog.rs:94-134 | a probe is refused if and only if an update is pending and it is unhealthy, and changes something if and only if one is pending and it is healthy: then nothing is pending, the count is zero and the pending version is installed |
| `AbDevice.Device.Rollback` | deputyctl/src/rollback.rs:66-143 | the user rollback in place, with the digest it checks and the boot selection it makes |
| `AbAnswers.RollbackExactly` | deputyctl/src/rollback.rs:66-143 | a provisioned device rolls back if and only if the recorded image is not a bad one and the selection succeeds; then labels and selection are exchanged, the recorded digest and path forgotten, and images, versions and the installed release stay |
| `AbAnswers.RollbackRefused` | deputyctl/src/rollback.rs:66-104 | without a record, or with a label that is no slot, nothing is touched |
| `AbDevice.Device.SwapSlots` | deputyctl/src/update.rs:447-517 | directory, copy, verify, select, record in order, ended by any failure or interruption |
| `AbDevice.UpdateDisk` | deputyctl/src/update.rs:477-515 | wherever an update ends, only the inactive slot's image changed, boot moved only after its bytes were checked, and the record only after that |
| `AbAnswers.UnderDevExactly` | deputyctl/src/update.rs:468-475 | a path is under `/dev` if and only if its first component is `dev`, not when its text merely begins so |
| `AbAnswers.UnderSlotsExactly` | deputyctl/src/update.rs:468-475 | and under the slot directory likewise, by its four components |
| `AbAnswers.EmptyNamesSkipped` | deputyctl/src/update.rs:468-475 | empty components and dots do not count |
| `AbAnswers.RelativeOutside` | deputyctl/src/update.rs:468-475 | a relative path is under neither root |
| `AbAnswers.UpdateRefused` | deputyctl/src/update.rs:447-475 | for every outcome: another format, a label that is no slot, a slot without a destination and one outside the two roots are refused, each with its error and nothing touched |
| `AbAnswers.UpdateCompletesExactly` | deputyctl/src/update.rs:447-517 | a provisioned device completes an update if and only if the format is one of the three, directory, copy and selection succeed, the bytes match and nothing stops it |
| `AbAnswers.UpdateCompleted` | deputyctl/src/update.rs:491-517 | then the other slot holds the bytes, is active, selected, pending and of the new version, and the slot that was active keeps image and version |
| `AbAnswers.InitialSettled` | deputyctl/src/update.rs:519-541 | what stands for a missing record has the first slot active and version zero on both, and no boots or probes change it |
| `AbDevice.SwapCrashSafe` | deputyctl/src/update.rs:481-515 | an update ended anywhere leaves boot on the untouched previous image or on bytes with the checked digest, when boot was on the active slot |
| `AbDevice.SwapSafetyExact` | deputyctl/src/update.rs:481-515 | and for all outcomes only then |
| `AbDevice.AgreementKept` | deputyctl/src/rollback.rs:111-136 | completed updates and rollbacks make boot selection and record agree, a probe keeps agreement |
| `AbDevice.CheckBreaksAgreement` | deputyctl/src/watchdog.rs:63-82 | a boot check keeps it if and only if it does not roll back by itself, because it never selects a boot slot |
| `AbDevice.AutoRollbackThenUpdate` | deputyctl/src/watchdog.rs:51-76 | after an unconfirmed update and three boots, boot is selected on the slot the next update overwrites |
| `AbDevice.RollbackVerifiesActive` | deputyctl/src/rollback.rs:93-98 | right after an update a rollback checks the slot it leaves, not the one it switches to |
| `AbDevice.ConfirmInstallsActive` | deputyctl/src/watchdog.rs:123-131 | the version recorded as installed is the one the record gives its active slot, stopped or not and whichever slot runs |
| `AbDevice.ExecKeeps` | deputyctl/src/update.rs:447-517 | each careful command, interrupted or not, keeps the good slot's label, version and image, and boots only a known image |
| `AbDevice.RunSafe` | deputyctl/src/watchdog.rs:16-134 | so does every run of careful commands, interrupted anywhere |
| `AbRollback.TargetVerified` | deputyctl/src/rollback.rs:93-104 | where the record describes the target, a rollback fails its integrity check exactly for a wrong target image; elsewhere the target's image plays no part, whatever it is |
| `AbRollback.RollbackChecksTargetExactly` | deputyctl/src/rollback.rs:93-104 | for every provisioned record: a bad image at the target is refused if and only if the recorded path is that of the slot switched to, and a regular file |
| `AbRollback.RunFollows` | deputyctl/src/rollback.rs:111-136 | over every run, what the record describes depends on what last changed the active slot: an update the active slot, the watchdog the inactive one, a user's rollback nothing |
| `AbRollback.TargetCheckedAfterRun` | deputyctl/src/watchdog.rs:51-76 | so after any run that changed the active slot, a rollback verifies its target if and only if the watchdog made the last change and the target is a regular file |
| `AbRollback.UnconfirmedKeepsSelection` | deputyctl/src/watchdog.rs:51-82 | after an update any number of boots and probes leave the slot it wrote selected; the record names the earlier one if and only if three boots came before a completed healthy probe |
| `AbRollback.NextSelectionIsTheSame` | deputyctl/src/update.rs:481-491 | in that state the next update or rollback selects the same slot again |
| `AbMachine.UpdateKeepsRunning` | deputyctl/src/rollback.rs:173-197 | under a loader that keeps its selection, as GRUB's file does, every boot after an update starts the slot it wrote, whatever the probes say, also when the record names the other |
| `AbMachine.OneShotRunsOnce` | deputyctl/src/rollback.rs:267-273 | under EFI the slot runs for one boot, confirmed or not; from the second boot on the firmware's own first entry runs |
| `AbMachine.StartSafetyExact` | deputyctl/src/update.rs:481-515 | under either, an update is safe to interrupt anywhere if and only if the next boot would have started the active slot |
| `AbMachine.StepStrays` | deputyctl/src/rollback.rs:111-136 | an update is left pending with another slot selected exactly by the commands that end between selection and record, until none is pending or a new one completes |
| `AbMachine.StrayExactly` | deputyctl/src/update.rs:481-515 | the same over every run, as an equivalence |
| `AbMachine.ConfirmRecordsRunning` | deputyctl/src/watchdog.rs:94-134 | a healthy probe records the version of the running slot if and only if that is the active one |
| `AbMachine.ConfirmRecordsSelected` | deputyctl/src/watchdog.rs:94-134 | and that of the selected slot if and only if record and selection agree |
| `AbMachine.ConfirmAfterBootExactly` | deputyctl/src/watchdog.rs:123-131 | under a loader that keeps its selection, over every run that ends in a boot with an update pending and two versions on the device: a healthy probe records the version of the slot that booted if and only if no command was cut short since the update |
| `AbMachine.CutShortConfirms` | deputyctl/src/rollback.rs:111-136 | a run in which it does not: update, rollback ended after its selection, boot, probe |
| `AbMachine.OneShotConfirmsExactly` | deputyctl/src/rollback.rs:267-273 | under EFI a confirmation after the first boot does if and only if the firmware falls back on the new slot |
| `GrubDefault.RewriteGrub` | deputyctl/src/rollback.rs:173-197 | the line loop with its `found` flag writes every default line anew, or appends one |
| `GrubDefault.FirstDefault` | deputyctl/src/rollback.rs:173-197 | an empty file becomes the one line `GRUB_DEFAULT=0` or `GRUB_DEFAULT=1`, and a shell reads the slot from it |
| `GrubDefault.RewriteSelects` | deputyctl/src/rollback.rs:183-197 | on lines: a shell that sources them reads the wanted entry if and only if the last assignment is not an indented or exported one of another entry, which the rewriting overlooks when it finds a default; every line that is not a default is kept in order |
| `GrubDefault.RewriteSelectsText` | deputyctl/src/rollback.rs:182-197 | the same of the text written, for any contents |
| `GrubDefault.SelectionBoots` | deputyctl/src/rollback.rs:164-197 | so the file selects the wanted slot, which the device model keeps as one label, under the same condition, as an equivalence |
| `GrubDefault.IndentedWins` | deputyctl/src/rollback.rs:185-191 | a file with an indented assignment in which selecting the first slot leaves the second selected |
| `GrubDefault.RewrittenTwice` | deputyctl/src/rollback.rs:183-197 | the last of two rewrites wins |
| `GrubDefault.RewriteTwice` | deputyctl/src/rollback.rs:183-197 | through the file, the second of two rewrites makes what it would have made of the first lines without carriage returns at their ends |
| `FileTree.FileSystem.CopyDirRecursive` | deputyctl/src/backup.rs:632-648 | copying entry by entry, in any order, into an empty directory: an exact copy of the source subtree and no other change if and only if no source path fails; stopped early, entries of the source's kinds in their directories and no other change |
| `FileTree.FileSystem.Rename` | deputyctl/src/restore.rs:322-323 | a rename succeeds under the POSIX conditions and then says path by path where each node is, or changes nothing |
| `FileTree.FileSystem.CreateDirs` | deputyctl/src/restore.rs:334 | creates the missing ancestors unless a file is in the way: the directory is there, and nothing that was there changes |
| `RestoreCommand.MoveAsideAndPlace` | deputyctl/src/restore.rs:319-359 | one component in place: moved aside, placed, or undone |
| `RestoreCommand.FailedCopyLeaves` | deputyctl/src/restore.rs:334-344 | whichever source path fails, a directory copy leaves something that the restore results quantify over |
| `RestoreCommand.RollBack` | deputyctl/src/restore.rs:253-267 | removes what was placed and moves the original back |
| `RestoreCommand.RestoreAll` | deputyctl/src/restore.rs:589-643 | the placement loop and its reverse undo loop, with the exit code |
| `RestoreSafety.AsideIsFresh` | deputyctl/src/restore.rs:311-314 | a new destination's aside path is free, also after earlier asides were themselves moved |
| `Restore.AsideBeside` | deputyctl/src/restore.rs:311-314 | it is a sibling of the destination, its name with `.pre-restore-` and the timestamp |
| `RestoreSafety.StepAt` | deputyctl/src/restore.rs:319-359 | where every path of the tree after a placement comes from |
| `RestoreSafety.AttemptedWellFormed` | deputyctl/src/restore.rs:319-359 | a placement leaves every path inside a directory |
| `RestoreSafety.UndoStep` | deputyctl/src/restore.rs:253-267 | undoing a placement gives the tree before it, whatever else was added since, but for that and the ancestors it created |
| `RestoreSafety.FailedWhereThere` | deputyctl/src/restore.rs:338-344 | a failed placement at an existing destination leaves the tree as it was |
| `RestoreSafety.FailedWhereAbsent` | deputyctl/src/restore.rs:338-344 | at an absent one it only adds: below the destination and its missing ancestors |
| `RestoreRuns.Reversal` | deputyctl/src/restore.rs:589-634 | the undo loop returns the original tree and an exactly described residue, whatever the nesting |
| `RestoreRuns.NothingLost` | deputyctl/src/restore.rs:589-634 | after a failed restore every original path is as it was |
| `RestoreRuns.ResidueIsUncovered` | deputyctl/src/restore.rs:334-344 | with parents in place the residue is what the failed copy left outside every placed destination |
| `RestoreRuns.RollbackExactly` | deputyctl/src/restore.rs:319-359 | the original tree is back if and only if the failing destination existed, or nothing was left, or it lies under a placed destination |
| `RestoreRuns.RollbackSureExactly` | deputyctl/src/restore.rs:319-359 | before the copy: whatever it leaves when it fails, the original tree comes back if and only if something is at the destination or it lies under a placed one |
| `RestoreRuns.PartialCopyStays` | deputyctl/src/restore.rs:338-344 | a family of restores that do not give the tree back: what a failed copy left at an absent destination is never removed |
| `RestoreRuns.Survives` | deputyctl/src/restore.rs:320-329 | every path survives every restore, where it was or under the asides it was moved to |
| `RestoreRuns.EarlierTreesSurvive` | deputyctl/src/restore.rs:638-641 | the same for a successful restore from a fresh tree, and in place where no destination covers it |
| `RestoreRuns.DestinationsHold` | deputyctl/src/restore.rs:589-603 | on success each component's paths are at its destination, unless a later component was placed over them |
| `RestoreRuns.DestinationIsExact` | deputyctl/src/restore.rs:589-603 | and a destination later ones keep away from holds exactly the component |
| `RestoreRuns.GoodRunSucceeds` | deputyctl/src/restore.rs:589-603 | with parents in place and no failure of the file system the restore succeeds |
| `Backup.BuildProfileBundle` | deputyctl/src/backup.rs:553-627 | the staged tree and the list of components in it |
| `Backup.BundleHolds` | deputyctl/src/backup.rs:570-608 | the bundle holds exactly the included components, each as it is on the device |
| `Backup.CapturedFiles` | deputyctl/src/backup.rs:569-627 | the directories of data and hooks with all below them, the secrets file, and a session database outside the data directory are in the bundle under their names, each if and only if it is there |
| `Backup.BundleOnly` | deputyctl/src/backup.rs:569-627 | and nothing else is |
| `Backup.IncludedNames` | deputyctl/src/backup.rs:569-627 | the list names exactly these, in order |
| `Backup.PlanIs` | deputyctl/src/restore.rs:271-309 | the components of a restore in order, each with its entry in the bundle, its destination and its kind; without a manifest the whole bundle is the data |
| `Backup.SessionCaptured` | deputyctl/src/backup.rs:592-608 | a session database is captured, with the data or alone, unless it is configured to be the data directory itself |
| `Backup.AttemptIs` | deputyctl/src/restore.rs:271-309 | the i-th component restored is the i-th of the destination's layout, holding what the bundle captured of that kind on the device, and missing exactly when nothing was |
| `Backup.PlainBundleRestored` | deputyctl/src/restore.rs:578-586 | a bundle without a manifest is restored as data: the data directory holds exactly the bundle, and nothing else is placed |
| `Backup.ComponentRestored` | deputyctl/src/restore.rs:271-309 | a captured path is at its place under the destination's layout, which may differ from the source's |
| `Backup.RoundTrip` | deputyctl/src/backup.rs:553-627 | onto the same layout, nested in any way, every captured path is back as it was |
| `Backup.BackupThenRestore` | deputyctl/src/restore.rs:271-359 | where parents exist the restore succeeds, every captured path is back, and so is the session database inside or outside the data directory |
| `Backup.DeviceRestored` | deputyctl/src/restore.rs:589-603 | so every path of the device at or below its data and hooks directories, its secrets file and its session database are back as they were |
| `Backup.ExactRoundTrip` | deputyctl/src/restore.rs:319-359 | with places apart, what is restored is exactly what was captured and nothing else |
| `Tunnel.Multiplexer.SelectOutbound` | deputyctl/src/tunnel.rs:284-292 | the outbound arm: one message goes to the cloud in order, or the loop ends |
| `Tunnel.Multiplexer.SelectDone` | deputyctl/src/tunnel.rs:293-297 | the done arm: the finished id leaves the map, whichever task it now belongs to, and no other does |
| `Tunnel.Multiplexer.SelectIncoming` | deputyctl/src/tunnel.rs:298-375 | the incoming arm: opening, refusing, delivering and closing streams |
| `Tunnel.Multiplexer.ProxyStep` | deputyctl/src/tunnel.rs:598-703 | one branch of a stream task, with the frames it sends |
| `TunnelSafety.TaskStepKeeps` | deputyctl/src/tunnel.rs:636-701 | every task step keeps the invariant of all streams |
| `TunnelSafety.HandleKeeps` | deputyctl/src/tunnel.rs:323-366 | so does every incoming frame, for reused ids too |
| `TunnelSafety.StepKeeps` | deputyctl/src/tunnel.rs:282-379 | so does every step, in any state |
| `TunnelSafety.RunKeeps` | deputyctl/src/tunnel.rs:282-379 | and every interleaving from the start |
| `TunnelRuns.TaskConversation` | deputyctl/src/tunnel.rs:598-703 | however ids are used, a task's frames at the cloud are a prefix of `close` or `accept data* close`, carry the local messages in order, and its local writes are a prefix of the stream's data since it was opened, unknown types skipped |
| `TunnelRequests.ActDoes` | deputyctl/src/tunnel.rs:598-703 | in any state, all that each branch of a task does: what it tells the cloud and the loop, what it writes, and whether it goes on |
| `TunnelRequests.RunServes` | deputyctl/src/tunnel.rs:323-330 | over every run the replies and the requests still waiting are as many as the requests received, and the pongs as many as the pings |
| `TunnelRequests.AllServed` | deputyctl/src/tunnel.rs:284-330 | while the loop runs, every run goes on to one in which the cloud has a reply to every request and a pong to every ping |
| `TunnelRequests.LoopEnds` | deputyctl/src/tunnel.rs:284-401 | after a hang-up or a failed send the cloud receives nothing more and no frame is taken in, whatever the tasks still do |
| `TunnelRequests.OnlyThenEnds` | deputyctl/src/tunnel.rs:282-379 | and nothing else ends the loop |
| `TunnelIds.RunAccounts` | deputyctl/src/tunnel.rs:331-345 | in every run each open of a named id makes one task or one refusal, the first never a refusal, and every message is for its task's own stream |
| `TunnelIds.StreamConversation` | deputyctl/src/tunnel.rs:282-401 | for an id opened at most once, whatever becomes of others, the same holds of all frames the cloud receives for it |
| `TunnelIds.ReuseBreaksConversation` | deputyctl/src/tunnel.rs:331-338 | every history that opens an id twice has a run in which the cloud receives for it a frame after a close, or a second accept |
| `TunnelIds.ConversationExactly` | deputyctl/src/tunnel.rs:282-401 | so all runs of a history give the id one conversation if and only if it opens the id at most once |
| `TunnelDrops.RunLedger` | deputyctl/src/tunnel.rs:293-366 | in every run: the done notices waiting for an id are of tasks that are done; an id in the map is its latest task's, which is not closed; an id out of the map whose latest stream is not closed had been opened and closed before it, or that stream is done and noticed |
| `TunnelDrops.NothingMissed` | deputyctl/src/tunnel.rs:358-365 | so in every run whose history does not reopen a closed id and send it data, a live stream that is not closed has every frame for it, taken or waiting |
| `TunnelReuse.StaleDoneDrops` | deputyctl/src/tunnel.rs:293-297 | every other history has a run in which a late done of an old stream makes the loop drop the data of a new one |
| `TunnelReuse.NothingMissedExactly` | deputyctl/src/tunnel.rs:282-379 | the two together, as an equivalence over all runs of a history |
| `TunnelReuse.NothingDropped` | deputyctl/src/tunnel.rs:358-365 | in particular for an id opened at most once, and what its task wrote locally is all it took |
| `TextLines.SplitIsLineSeq` | deputyos-track/src/patch.rs:28 | splitting keeps every character, and only the last line may lack its line feed |
| `TextLines.SplitOfConcat` | deputyos-track/src/patch.rs:28 | lines of that shape, joined and split again, are the same lines |
| `TextLines.WhitespaceExactly` | deputyos-track/src/patch.rs:29 | white space is the 25 characters of Unicode that are |
| `PinnedVersion.BumpPinnedVersion` | deputyos-track/src/patch.rs:23-58 | the loop with its section flag rewrites the first assignment under `[profile]` and nothing else, or fails when there is none |
| `PinnedVersion.SameMatch` | deputyos-track/src/patch.rs:63-92 | whether a line matches, and the old version it reports, do not depend on the new version |
| `PinnedVersionSite.SiteExactly` | deputyos-track/src/patch.rs:28-52 | a line is the one rewritten if and only if it assigns the version, the nearest header above it names `profile`, and no earlier line is like it |
| `PinnedVersionSite.FailsExactly` | deputyos-track/src/patch.rs:54-58 | the edit fails if and only if there is no such line |
| `PinnedVersionSite.HeaderNames` | deputyos-track/src/patch.rs:29-39 | a bracketed name with any white space around the brackets and inside them is a header of that section |
| `PinnedVersionSite.PlainFile` | deputyos-track/src/patch.rs:23-92 | in the two-line file of header and assignment the version is reported and replaced |
| `PinnedVersionLens.ShapeOf` | deputyos-track/src/patch.rs:63-77 | every matching line is indent, key, pad, `=`, gap, quoted value, tail |
| `PinnedVersionLens.MatchOf` | deputyos-track/src/patch.rs:78-91 | every such line matches, and the rewrite replaces only gap and value |
| `PinnedVersionLens.EditIsLocal` | deputyos-track/src/patch.rs:20-22 | for any version, all text before and after the rewritten line is byte-identical |
| `PinnedVersionLens.OtherLinesKept` | deputyos-track/src/patch.rs:20-22 | for one without quotes or line feeds the file also has the same lines, all but one unchanged |
| `PinnedVersionLens.PutGetExact` | deputyos-track/src/patch.rs:23-92 | the next edit reports the version just written if and only if it has no quote and no line feed |
| `PinnedVersionLens.PutPut` | deputyos-track/src/patch.rs:23-92 | after such a version, writing another is as if only the other had been written |
| `PinnedVersionLens.GetPutExact` | deputyos-track/src/patch.rs:83-91 | writing back the version read changes nothing if and only if one or more spaces, and nothing else, precede the quote |
| `SecretsEnv.LoadSecretsFrom` | deputyctl/src/model.rs:78-104 | the reader's loop: the last assignment of each key |
| `SecretsShell.QuotedLineReads` | deputyctl/src/model.rs:84-98 | a value in either kind of quotes is read as what they enclose, with or without `export` and with blanks around it |
| `SecretsShell.BareLineReads` | deputyctl/src/model.rs:84-98 | any other value is read as it stands |
| `SecretsShell.CommentSkipped` | deputyctl/src/model.rs:84-88 | a comment assigns nothing, wherever it is indented |
| `SecretsShell.BlankSkipped` | deputyctl/src/model.rs:84-88 | nor does a line of white space |
| `SecretsShell.NoAssignment` | deputyctl/src/model.rs:84-90 | nor a line with no equals sign |
| `SecretsEnv.QuoteForShell` | deputyctl/src/model.rs:196-222 | the quoting loop |
| `SecretsEnv.WriteSecretTo` | deputyctl/src/model.rs:150-194 | the writer's loop with its `replaced` flag: the whole new file, or an error for an empty key |
| `SecretsEnv.RecoveredExactly` | deputyctl/src/model.rs:196-222 | a value survives quoting and reading if and only if it has no single quote |
| `SecretsShell.ShellReadsExactly` | deputyctl/src/model.rs:196-222 | a shell reads a written value back if and only if it was quoted, or has neither an operator character nor a tilde where one is expanded |
| `SecretsShell.BothReadExactly` | deputyctl/src/model.rs:78-222 | shell and reader agree on a written value under the same condition and if it has no single quote |
| `SecretsEnv.RewrittenAssigns` | deputyctl/src/model.rs:159-176 | every line the writer replaces was an assignment to that key for the reader |
| `SecretsShell.ReplacesExactly` | deputyctl/src/model.rs:162-170 | a line is replaced if and only if, after nothing but white space, it begins with the key and an equals sign, plainly or after `export` |
| `SecretsShell.OnlyWritten` | deputyctl/src/model.rs:159-176 | so after a write every such line is the one written, and there is one |
| `SecretsEnv.LoadOutLines` | deputyctl/src/model.rs:159-180 | on lines: other keys keep their values, and the key reads as written or as a later overlooked line says |
| `SecretsEnv.WriteThenLoad` | deputyctl/src/model.rs:150-194 | the same through the file, for any contents |
| `SecretsEnv.WriteExact` | deputyctl/src/model.rs:150-222 | unless such a line shadows it, the value reads back if and only if it has no single quote and no line feed |
| `SecretsEnv.ShadowedFile` | deputyctl/src/model.rs:78-176 | the file `K=1`, `K =2`: the writer replaces the first line, the reader takes the second, so no written value is read |
| `Ordering.CompareFlip` | deputyctl/src/release.rs:400 | lexicographic comparison is antisymmetric, and ties are equality |
| `Ordering.CompareTransitive` | deputyctl/src/release.rs:400 | and transitive |
| `ReleaseVersion.StrictWeakOrder` | deputyctl/src/release.rs:388-411 | `is_newer` is a strict weak order on all strings, and ties are equal cores with equal suffixes |
| `ReleaseNumbers.PrintedParses` | deputyctl/src/release.rs:388-396 | a printed number with any zeros in front is read as itself below the width of its type, and refused above |
| `ReleaseNumbers.OtherRefused` | deputyctl/src/release.rs:393-394 | a part that is no number is refused, and counts as zero for the updater |
| `ReleaseNumbers.NewerExactly` | deputyctl/src/release.rs:388-411 | a release is newer than another if and only if its year, month and day are later as numbers, or the same and its suffix is later, none being the latest |
| `ReleaseNumbers.TenIsNewer` | deputyctl/src/release.rs:388-411 | so `2026.4.10` is newer than `2026.4.9`, and not the other way round |
| `ReleaseNumbers.ValidIsShaped` | deputyctl/src/release.rs:362-386 | every valid release is four, one or two, and one or two digits with dots between them, and a suffix that is not empty if there is a dash |
| `ReleaseNumbers.ShapedIsValid` | deputyctl/src/release.rs:362-386 | and all of these are valid |
| `ReleaseText.ReadBack` | deputyctl/src/update.rs:118-132 | reading a valid release back from the version file keeps its core, and its suffix up to white space at the end |
| `ReleaseText.ReadBackExactly` | deputyctl/src/update.rs:118-132 | for every release the validator accepts: read back, it is below no installed release it was newer than if and only if its suffix ends in no white space or is nothing but white space |
| `ReleaseNumbers.FirstInstall` | deputyctl/src/update.rs:118-132 | an empty version file reads as `0.0.0`, so every release of a year after zero is newer |
| `ReleaseRuns.InstalledClimbs` | deputyctl/src/watchdog.rs:123-131 | over every run of offers of that kind, probes, boots and rollbacks the installed release never goes down; it ends as the last one confirmed, as read back, and none confirmed is above it |
| `ReleaseRuns.NeverFallsExactly` | deputyctl/src/release.rs:362-386 | for every set of valid releases on offer: no run lowers the installed release, whatever it is, if and only if each of them is of that kind |
| `ReleaseRuns.UntidyFalls` | deputyctl/src/update.rs:118-132 | one such run: a suffix with a wide space is accepted above `a!`, and read back as `a`, which is older |
| `ReleaseRuns.ResolvedClimbs` | deputyctl/src/update.rs:322-334 | over runs in which a pending update is left only by its confirmation, each accepted release is newer than all before it |
| `ReleaseRuns.ClimbsOnExactly` | deputyctl/src/update.rs:322-334 | after any run whose accepted releases climb, the next command is sure to keep them climbing if and only if none is newer than the installed release |
| `ReleaseRuns.SettledExactly` | deputyctl/src/update.rs:322-334 | over runs of that kind: if and only if no update newer than the installed release is pending |
| `ReleaseRuns.AcceptedCycle` | deputyctl/src/update.rs:298-334 | any two valid releases above the installed one are accepted high, low, high when none is confirmed, and the record's active slot holds each in turn |
| `ReleaseRuns.ReleaseCycle` | deputyctl/src/update.rs:322-334 | such a pair exists above a pre-release of any valid release |
| `TrackedVersion.ValidParses` | deputyos-track/src/version.rs:33-57 | every valid release version parses, to the numbers and suffix the updater sees |
| `ReleaseNumbers.TrackedReads` | deputyos-track/src/version.rs:33-57 | three printed numbers and a suffix parse to themselves if and only if they fit 64 bits |
| `ReleaseNumbers.TagReads` | deputyos-track/src/version.rs:33-40 | a leading `v` changes nothing but the text kept |
| `ReleaseNumbers.TrackedRefuses` | deputyos-track/src/version.rs:43-53 | a part that is no number is an error |
| `TrackedVersion.OrdersAgree` | deputyos-track/src/version.rs:60-74 | on every pair of valid release versions the two orders are the same |
| `TrackedVersion.OrdersDifferExactly` | deputyos-track/src/version.rs:43-53 | on dotted numbers of any length they differ if and only if the first three parts, padded with zeros, are the same and the lists are not |
| `TrackedVersion.MissingPartDiffers` | deputyos-track/src/version.rs:43-53 | for example, a missing part is zero to one and less than zero to the other |
| `StderrTail.ReadTail` | deputyctl/src/hooks.rs:266-287 | for every split into reads of at most 256 bytes the buffer ends as the last 1024 bytes received, holding at most 4352 |
| `StderrTail.ReceivedExactly` | deputyctl/src/hooks.rs:266-283 | what is received are the bytes of all reads before the first that is empty, the end or an error, and nothing after it |
| `StderrTail.LastOfLast` | deputyctl/src/hooks.rs:274-277 | trimming early loses nothing that trimming late would keep |
| `Reconcile.Reconciler.Run` | deputyctl/src/reconcile.rs:51-143 | the run's loop over components: the whole new counter map, every report, and the exit code or the error |
| `Reconcile.CounterIsStreak` | deputyctl/src/reconcile.rs:86-109 | over every history a stored counter is the current streak of required runs that ended failed, saturated at 32 bits |
| `Reconcile.ActionExactly` | deputyctl/src/reconcile.rs:92-118 | a run acts if and only if its first probe fails and it is forced or the previous required run ended failed; it restarts an active unit and starts any other; health and count reported likewise |
| `Reconcile.HealthyExactly` | deputyctl/src/reconcile.rs:118-143 | over every history a run's exit code is zero if and only if no component that it requires ends failed |
| `Reconcile.EndsFailedIs` | deputyctl/src/reconcile.rs:86-118 | a visit ends failed when its probe fails and nothing is done, or command or second probe fails too; something is done the second time in a row or when forced |
| `Reconcile.NotRequired` | deputyctl/src/reconcile.rs:58-72 | a component that is not required is reported healthy, with no count and no action, under its own name and unit |
| `InstanceRegistry.BindEphemeral` | deputyos-desktop/src/instance.rs:374-384 | the bounded retry loop |
| `InstanceRegistry.FirstFreeExactly` | deputyos-desktop/src/instance.rs:374-384 | a port is returned if and only if some attempt brings it and every earlier one brought an excluded port |
| `InstanceRegistry.AllocatePortPair` | deputyos-desktop/src/instance.rs:361-369 | two different ports, neither excluded, or none |
| `InstanceRegistry.Registry.Upsert` | deputyos-desktop/src/instance.rs:184-190 | replaces by id or appends: the instance is there, and those with other ids are as before |
| `InstanceRegistry.Registry.Remove` | deputyos-desktop/src/instance.rs:193-197 | keeps exactly the other ids, and says whether there was one |
| `InstanceRegistry.Registry.CreateInstance` | deputyos-desktop/src/instance.rs:217-254 | a new record with free ports and directories under its id, or the name or port error |
| `InstanceRuns.CreateExactly` | deputyos-desktop/src/instance.rs:217-254 | with 64 attempts for each port: a name in use is refused, then a lack of two free ports, and otherwise the record has the request's name, target, profile, manifest URL and channel, the ports offered and the default envelope |
| `InstanceRegistry.SlugExactly` | deputyos-desktop/src/instance.rs:326-344 | a slug is read if and only if the path ends in `instances`, a proper name and one more part |
| `InstanceOps.Console.Create` | deputyos-desktop/src/runtime.rs:52-64 | load, create, insert, save |
| `InstanceOps.Console.DeleteInstance` | deputyos-desktop/src/runtime.rs:68-87 | the first instance with that id or name is gone, or an error and no change |
| `InstanceOps.Console.ConfigureResources` | deputyos-desktop/src/runtime.rs:138-157 | validated, known, stopped: only then is the envelope stored, and which error otherwise |
| `InstanceRuns.ConfigureExactly` | deputyos-desktop/src/runtime.rs:138-157 | an envelope is stored if and only if it has a processor, at least 256 MiB and a maximum no lower, the instance is known, and it is stopped; each error otherwise; only the first instance of that key changes |
| `InstanceOps.Console.RecordStatus` | deputyos-desktop/src/runtime.rs:237-248 | the status of the first match, best effort |
| `InstanceRuns.ObserveExactly` | deputyos-desktop/src/runtime.rs:237-248 | the first instance of that key bears the status seen, and nothing else changes |
| `InstanceOps.StepKeeps` | deputyos-desktop/src/runtime.rs:52-157 | every operation keeps the registry free of collisions, given fresh ids |
| `InstanceOps.NoCollisions` | deputyos-desktop/src/instance.rs:207-216 | after every sequence of operations ids, names and all ports are pairwise distinct, no directory of one instance lies in another's, and each slug is its instance's id |
| `InstanceOps.KeyReaches` | deputyos-desktop/src/runtime.rs:68-75 | an operation by id reaches that instance if and only if no earlier one has the id as its name, and one by name if and only if no earlier one has the name as its id |
| `InstanceRuns.DeleteExactly` | deputyos-desktop/src/runtime.rs:68-87 | over every run a deletion takes out the first instance of that key and leaves the others in place, or fails when there is none |
| `InstanceRuns.RunAccounts` | deputyos-desktop/src/runtime.rs:52-157 | over every run each instance has name, target, profile, manifest URL, channel, id, time and directories of one request, the default envelope or one set while it was reported stopped, and no status but one observed |
| `InstanceRuns.NeverStopped` | deputyos-desktop/src/runtime.rs:138-157 | so where no instance is reported stopped, no reconfiguration ever takes effect |
| `InstanceRuns.StaysUntilRemoved` | deputyos-desktop/src/runtime.rs:52-157 | over every run an instance stays, with all its request and its ports, until a deletion by its own id or name |

## Where the code and its documentation differ

- `rollback.rs:89-92` announces an integrity check of the rollback target. The recorded digest and
  path are the target's only when the watchdog made the last change of the active slot
  (`AbRollback.TargetCheckedAfterRun`); right after an update they are those of the slot being
  left (`AbDevice.RollbackVerifiesActive`). The model follows the code.
- `watchdog.rs:5-6` speaks of an automatic rollback after three boots. The record is rolled back;
  the boot selection is not (`AbRollback.UnconfirmedKeepsSelection`).
- `docs/08-update-rollback.md:77-78` has a confirmation make the boot pointer permanent, and a
  one-shot pointer fall back. No confirmation touches the boot loader: GRUB's selection is never
  one-shot (`AbMachine.UpdateKeepsRunning`), and an EFI one always is (`AbMachine.OneShotRunsOnce`).
- `watchdog.rs:91-93` speaks of confirming the pending slot. Which slot is running is not asked
  (`AbMachine.ConfirmAfterBootExactly`).
- `hooks.rs:264-265` says an I/O error yields an empty string. The code keeps what was read before
  the error, and so does `StderrTail.ReadTail`.
- `restore.rs:7` promises that a failure mid-flight restores the moved-aside copy. It does, but
  what a failed copy left at a destination that was absent stays (`RestoreRuns.RollbackExactly`).
- `cost.rs:648` says string comparison orders timestamps; it does so up to the year 9999
  (`Timestamp.OrderHoldsBelow`).

## Left out

- Bech32.CorruptionRejected: errors spread over more than six consecutive letters are not covered, since the standard's distance bound needs a search over short codes; nor is the checksum under another prefix, and `bech32_decode` itself does not verify it.
- RestoreRuns.RollbackExactly: assumes that each destination's parent is a directory when its turn comes; without it `RestoreRuns.Reversal` describes the residue, which then includes created ancestors.
- RestoreCommand.MoveAsideAndPlace: undo renames and removals meet no I/O error of their own; file modes are not modelled.
- Backup.RoundTrip: staging meets no I/O error; the archive, its encryption and its transfer carry the staged tree unchanged; the staging area is a file system of its own.
- FileTree.FileSystem.CopyDirRecursive: regular files and directories only, lexical paths without a trailing separator; symlinks, special files and canonicalisation are left out.
- FileTree.FileSystem.CreateDirs: a creation either succeeds whole or leaves nothing; one that fails after making some ancestors is not an outcome.
- AbSlots.RunConsistent: `boot_count` is unbounded; it never exceeds three while consistent. The environment variable that moves the slot file for one command only is taken as unset.
- AbDevice.Device.SwapSlots: boot selection is the slot selected last; what `AbMachine` makes of it covers loaders that keep it and one-shot ones. Only the GRUB file's rewrite is modelled text by text, not the Raspberry Pi's, the search for the EFI entry, nor partial writes.
- GrubDefault.RewriteSelects: of the shell's language a line assigns at most once, plainly or exported, a word that may be quoted; continuations, expansions and commands are not modelled.
- CostLedger.SumsAreCalendarSums: dollars are reals, so floating-point rounding is not modelled, and a window's text is cut by characters, not bytes.
- SecretsEnv.WriteExact: keys are names without white space or `=`, as shell identifiers are; file replacement is atomic.
- SecretsShell.ShellReadsExactly: a word that holds an expansion, an escape or an operator outside quotes is given no value, where a shell would expand it or end it.
- Tunnel.Multiplexer.SelectIncoming: frame parsing, the proxied HTTP request itself and socket handshakes are outcomes chosen by the environment; message types beyond known and unknown are not distinguished.
- StderrTail.ReadTail: the final lossy decoding and trimming of the buffer are not modelled.
- Reconcile.Reconciler.Run: the detail texts of a report are not modelled; the state file is read back as it was stored, so a corrupted one, which the source treats as empty, is not modelled.
- InstanceRegistry.Registry.CreateInstance: identifiers are drawn by the environment; freshness is assumed where it is used, not derived from their length.
- InstanceOps.Console.DeleteInstance: stopping the machine and removing the deleted instance's directories are not steps of the model; the record it returns names them.
- ReleaseRuns.InstalledClimbs: the environment variable that overrides the installed version is taken as unset.
- Bech32.Encode: prefixes are ASCII text; the checksum results hold for prefixes of any bytes.
- Bech32.Decode: non-ASCII letters of a prefix keep their case.
- Processes and foreign tools (age, minisign, tar, rclone, systemctl, bootloader tools), HTTP and serialisation are outcomes or values, not models.
- The network rules, quiet hours, factory reset, audit, doctor, recovery-key file, voice, wizard and user-interface parts would add only easy members.
