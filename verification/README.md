# Verified model of the Oliphaunt native runtime

Oliphaunt runs PostgreSQL inside the host process. This project models the parts of it where threads,
bytes and failures meet, and proves what they promise over all inputs and all interleavings. Everything is
Dafny 4.11; `dafny verify dfyconfig.toml` checks the whole project.

| area | modules | main results |
|---|---|---|
| process-wide handle | `Lifecycle`, `Registry`, `Admission` | no use after free, one claim, generations increase, one retirement owner |
| physical archive | `TarOctal`, `TarHeader`, `ArchivePath`, `ArchiveCheck`, `Archive`, `ArchiveRoundTrip`, `Wal`, `PgData`, `PgBackup`, `TarReader`, `TarWriter`, `RestoreRules`, `BackupScope`, `LostDirectory` | restoring a backup gives the data directory back, under every fragmentation |
| backup mode | `Replies`, `ReplyRules`, `BackupMode`, `BackupRows` | an unpoisoned handle never leaves PostgreSQL in backup mode |
| protocol streaming | `Frames`, `ReadyScan`, `StreamQueue`, `RawStream`, `Requests`, `Feed`, `CopyMode` | scanners agree under every chunking, streams deliver everything, input is conserved |
| error attribution | `Errors` | every tree of operations reports its own error |
| extensions | `Extensions` | resolution is exact, ordered and independent of request order |
| broker and wire | `Wire`, `WireRules`, `Broker` | chunk-independent framing, agreeing validators, session isolation |

`Prelude` holds the shared types. Code that changes state is modelled by classes and loops proved against
functions of the old state; code that runs on several threads is modelled as a transition system whose steps
are the critical sections, with theorems over every run. `Admission`, `TarReader`, `TarWriter`, `RestoreRules`,
`BackupScope`, `BackupRows`, `CopyMode`, `ReplyRules` and `WireRules` say what these functions and steps decide in terms of
literal names, type bytes, byte positions and state fields, not through their definitions.

## What turned out different

Each of these is a property one would expect of the code. It fails for a known input, and the condition under
which it holds is proved.

- A directory whose path, with its final slash, has 101 to 156 bytes is stored with an empty name field, which
  the restore refuses (`TarHeader.WrittenPathReadsBackIff`, `PgBackup.RestoreGivesBack`, `LostDirectory.RestoredIffShort`).
- A raw stream also delivers what the backend writes after its ReadyForQuery and before the call returns, and the
  queued half of a write that is cut short because another thread has begun to close the handle; and it misses the
  half of a write that was queued before it began (`RawStream.ExactIffNeitherTornNorLate`,
  `RawStream.LateBytesAreDelivered`, `RawStream.TornBytesAreDelivered`, `RawStream.CarriedBytesAreMissing`).
  A call that was open before the handle was claimed can still begin to stream (`Lifecycle.StreamAfterClaim`).
- The buffered scanner denies a ReadyForQuery it has already reported when at least five bytes of an incomplete
  message follow it (`ReadyScan.OutputBuffer.Scan`, `ReadyScan.LeftoverHidesReady`), and never reports after an
  invalid header (`ReadyScan.ScannersAgree`).
- The header of the public API says that Terminate closes stream input; fed in COPY mode to an open stream it
  does not (`Feed.TerminateClosesIff`, `Feed.TerminateLeavesCopyOpen`). The model follows the code.
- After a response has been copied out the buffered scanner goes on from the old offset, so a late write can be
  skipped or read from the middle of a message; the next query starts afresh (`ReadyScan.StaleOffsetIff`,
  `ReadyScan.StaleOffsetMisreads`, `ReadyScan.OutputBuffer.Answer`).
- A backup poisons the handle although no start was ever handed to PostgreSQL exactly when its start query is refused:
  the handle is logically closed, its backend has exited, its input slot is busy, another thread has begun a stream
  since the backup looked, or a detach or close waits for this call and lets no new one in. Poison is safe, not exact
  (`BackupMode.Handle.Backup`).
- A dependency shared by two extensions from different packages silently keeps the first
  (`Extensions.AllFitIffAssignable`, `Extensions.DisagreementIsSilent`).
- A closing broker skips the session reset but still hands the slot on, so a startup, though never an Execute,
  can meet the previous client's session (`Broker.StartupIsFreshIff`, `Broker.ClosingStartupIsNotFresh`).
- A cancel request can interrupt a backend that runs no command of its client, because a command that could not be
  sent leaves the executing flag up (`Broker.CancelArmedIff`, `Broker.StaleFlagArmsCancel`).

## Assumptions

- The backend thread, PostgreSQL's answers, the restore callback and other threads are arbitrary: they appear as
  nondeterministic steps, replies and fragments.
- A response with an error to the start of a backup means that backup mode was not entered; a confirmed stop means
  that it was left, and outside backup mode no stop is confirmed (`BackupMode.Server`).
- Files do not change while they are read. Allocation does not fail. Stored files are smaller than 8 to the power 11 bytes.
- An extension name is its number in the order of SQL names; the generated catalog is an arbitrary finite one,
  and a dependency listed in it carries no package of its own, as in the generated constants.

## Model

| member | source | states |
|---|---|---|
| `Lifecycle.StepKeeps` | src/native/runtime/src/liboliphaunt_process.c:67-380 | each of the 24 kinds of step, taken by any thread, keeps the invariant that ties the global state, instance, call counter, retirement flag, thread-local owner and heap together |
| `Lifecycle.RunKeeps` | src/native/runtime/src/liboliphaunt_process.c:67-380 | the invariant holds in every state of every interleaving of any number of threads from process start |
| `Lifecycle.NoUseAfterFree` | src/native/runtime/src/liboliphaunt_process.c:67-176 | in every run, a thread that holds a call, the handle's mutex, or a builder, reopener, retirer or closer role on a handle never has a freed one |
| `Lifecycle.DrainedIsQuiet` | src/native/runtime/src/liboliphaunt_process.c:170-176 | once the closer's wait has returned there is no call, no lock, no reopener and nobody else entitled to the handle |
| `Lifecycle.FreedOnlyWhenQuiet` | src/native/runtime/src/liboliphaunt_native.c:785-852 | in every run the resident handle is freed only with no open call, nobody inside its mutex, and nobody else entitled to it, also when a poisoned detach was promoted to close |
| `Lifecycle.SpentStep` | src/native/runtime/src/liboliphaunt_process.c:255-288 | no step of any thread leaves the spent state, and none taken in it starts a call, a reopen, a retirement, a reservation or a claim |
| `Lifecycle.SpentIsAbsorbing` | src/native/runtime/src/liboliphaunt_process.c:298-305 | over every run, SPENT once reached is never left |
| `Lifecycle.NothingStartsAfterClaim` | src/native/runtime/src/liboliphaunt_process.c:325-380 | after a successful claim no call, reopen, retirement, reservation or second claim ever starts |
| `Lifecycle.ClaimSucceedsAtMostOnce` | src/native/runtime/src/liboliphaunt_process.c:325-380 | at most one terminal claim succeeds in a whole run |
| `Lifecycle.RetirementHasOneOwner` | src/native/runtime/src/liboliphaunt_process.c:113-158 | in every reachable state the retirement flag is set exactly when some thread owns the current handle's retirement, and then exactly one does |
| `Lifecycle.RetirementExcludesOthers` | src/native/runtime/src/liboliphaunt_process.c:113-158 | from begin returning until the end or the promotion, every open call belongs to the owner |
| `Lifecycle.EndNeverClearsAnother` | src/native/runtime/src/liboliphaunt_process.c:160-168 | ending a retirement never changes another thread's, even when it was promoted to close before |
| `Lifecycle.ActivateLog` | src/native/runtime/src/liboliphaunt_native.c:48-60 | the first generation handed out extends a strictly increasing log |
| `Lifecycle.ReopenLog` | src/native/runtime/src/liboliphaunt_native.c:62-95 | a reopen hands out a generation above all earlier ones |
| `Lifecycle.LogKeeps` | src/native/runtime/src/liboliphaunt_native.c:48-95 | every step keeps the log of generations strictly increasing and ending in the published handle's generation |
| `Lifecycle.GenerationsIncrease` | src/native/runtime/src/liboliphaunt_native.c:631-641 | over every run the generations handed out strictly increase |
| `Lifecycle.ClaimByGenerationIsLatest` | src/native/runtime/src/liboliphaunt_process.c:325-380 | a claim by generation succeeds only for the last generation handed out, and does succeed for it when no gate, lock or stream is in the way |
| `Lifecycle.WholeLife` | src/native/runtime/src/liboliphaunt_native.c:506-644 | the steps compose to a run that builds, publishes, calls, claims by generation and frees a handle, so the statements about runs are not empty |
| `Lifecycle.PromotedLife` | src/native/runtime/src/liboliphaunt_native.c:694-773 | a run in which a poisoned detach is promoted to close, frees the handle and ends its retirement |
| `Lifecycle.ReopenedLife` | src/native/runtime/src/liboliphaunt_native.c:62-95 | a run in which a handle is detached and reopened under the next generation |
| `Lifecycle.StreamAfterClaim` | src/native/runtime/src/liboliphaunt_process.c:325-380 | a run in which a call opened before a claim begins to stream after it |
| `Admission.ClaimOutcomes` | src/native/runtime/src/liboliphaunt_process.c:325-380 | over every run and from the fields of the state it finds: a claim succeeds, is refused for a running stream, is stale, comes too late or waits, each if and only if its condition holds |
| `Admission.ClaimEffect` | src/native/runtime/src/liboliphaunt_process.c:369-379 | a successful claim empties the slot and ends the retirement, and any other result changes nothing |
| `Admission.RetireOutcomes` | src/native/runtime/src/liboliphaunt_process.c:113-158 | the same for the gate of a detach, which is never installed over a running stream |
| `Admission.AcquireOutcomes` | src/native/runtime/src/liboliphaunt_process.c:255-288 | the same for init: wait, reserve, reopen or refusal |
| `Admission.CallOutcomes` | src/native/runtime/src/liboliphaunt_process.c:67-103 | a call is opened exactly on the current handle, and during a retirement by its owner only |
| `Admission.StreamIsNotClosed` | src/native/runtime/src/liboliphaunt_process.c:363-367 | a run in which a claim and a retirement during a stream are refused as busy |
| `Admission.NobodyHasAFreedHandle` | src/native/runtime/src/liboliphaunt_process.c:67-176 | role by role: a thread with a call, the mutex, or any part in init, reopen, detach or close has a handle that is still allocated |
| `Admission.FreedAlone` | src/native/runtime/src/liboliphaunt_native.c:785-852 | at the free there is no open call, the mutex is free and no other thread has a part in any handle |
| `Admission.OneBackendPerProcess` | src/native/runtime/src/liboliphaunt_process.c:255-288 | over every run, whatever fails, is closed or opened again, a backend is started at most once |
| `Admission.ReleaseOutcomes` | src/native/runtime/src/liboliphaunt_process.c:298-305 | after a failed init the slot is unused exactly if no backend was ever started, and spent otherwise |
| `Admission.GenerationFits` | src/native/runtime/src/liboliphaunt_native.c:48-60 | generations are handed out one by one and stay within 64 bits |
| `Admission.GenerationRead` | src/native/runtime/src/liboliphaunt_process.c:307-323 | a generation is read from the current handle only, and is zero for any other pointer |
| `Registry.ProcessRegistry.BeginHandleCall` | src/native/runtime/src/liboliphaunt_process.c:67-87 | a call is admitted exactly on the current handle and, during a retirement, exactly for its owner; keeps the invariant |
| `Registry.ProcessRegistry.TryBeginHandleCall` | src/native/runtime/src/liboliphaunt_process.c:89-100 | admitted exactly on the current handle while nobody retires it; keeps the invariant |
| `Registry.ProcessRegistry.EndHandleCall` | src/native/runtime/src/liboliphaunt_process.c:102-111 | gives back one held call; the counter stays the number of open calls |
| `Registry.ProcessRegistry.BeginHandleRetirement` | src/native/runtime/src/liboliphaunt_process.c:113-158 | one critical section: null, stale, nested, waiting, busy or installed, as the transition system says |
| `Registry.ProcessRegistry.EndHandleRetirement` | src/native/runtime/src/liboliphaunt_process.c:160-168 | clears flag and owner; one step of the transition system |
| `Registry.ProcessRegistry.AcquireGlobalInstance` | src/native/runtime/src/liboliphaunt_process.c:255-288 | waits, reserves, hands over the locked resident handle or refuses, as the transition system says |
| `Registry.ProcessRegistry.PublishGlobalInstance` | src/native/runtime/src/liboliphaunt_process.c:290-296 | the built handle becomes the current one while the slot is reserved; keeps the invariant |
| `Registry.ProcessRegistry.ReleaseGlobalInstance` | src/native/runtime/src/liboliphaunt_process.c:298-305 | the slot goes back to unused, or to spent once a backend was started; keeps the invariant |
| `Registry.ProcessRegistry.LogicalGeneration` | src/native/runtime/src/liboliphaunt_process.c:307-323 | the generation of the current handle, zero for any other pointer, without touching a freed one |
| `Registry.ProcessRegistry.ClaimForClose` | src/native/runtime/src/liboliphaunt_process.c:325-380 | waits, spent, stale, busy or claimed, as the transition system says; keeps the invariant |
| `TarOctal.ParseTarOctal` | src/native/runtime/src/liboliphaunt_archive_tar.c:1027-1059 | the parsing loop computes the reference value of a field, refusing overflow of 64 bits and stray characters |
| `TarOctal.TarHeaderChecksum` | src/native/runtime/src/liboliphaunt_archive_tar.c:1061-1067 | the sum of the header with its checksum field read as blanks |
| `TarOctal.FieldRoundTrip` | src/native/runtime/src/liboliphaunt_archive_tar.c:460-472 | every number written in every width from 2 to 22 reads back as itself, or as the saturated field when it does not fit |
| `TarOctal.FieldExactIff` | src/native/runtime/src/liboliphaunt_archive_tar.c:460-472 | a written number reads back exactly if and only if it fits the field |
| `TarHeader.TarSetName` | src/native/runtime/src/liboliphaunt_archive_tar.c:437-458 | the scan finds the last split with a prefix of at most 155 and a name of at most 100 bytes, or none |
| `TarHeader.SplitKeepsPath` | src/native/runtime/src/liboliphaunt_archive_tar.c:437-458 | prefix and name, joined as the reader joins them, are the path again |
| `TarHeader.EmptyNameIff` | src/native/runtime/src/liboliphaunt_archive_tar.c:437-458 | the split leaves an empty name exactly for slash-terminated paths of 101 to 156 bytes |
| `TarHeader.BuildHeader` | src/native/runtime/src/liboliphaunt_archive_tar.c:474-546 | the array writes build exactly the reference header block, checksum included, or fail with the split |
| `TarHeader.ReadHeader` | src/native/runtime/src/liboliphaunt_archive_tar.c:1069-1210 | the header checks and field reads compute the reference parse |
| `TarHeader.HeaderRoundTrip` | src/native/runtime/src/liboliphaunt_archive_tar.c:474-546 | a written header reads back with its path, kind and size, unless its name field is empty, and then it is refused |
| `TarHeader.WrittenPathReadsBackIff` | src/native/runtime/src/liboliphaunt_archive_tar.c:474-546 | a path that fits is read back if and only if it is not a directory whose slash-terminated path has 101 to 156 bytes |
| `TarReader.OctalIff` | src/native/runtime/src/liboliphaunt_archive_tar.c:1027-1059 | a field is read as a number if and only if it is blanks, octal digits, blanks, and the number is their place value, of at most 64 bits |
| `TarReader.HeaderIff` | src/native/runtime/src/liboliphaunt_archive_tar.c:1069-1210 | the reader takes a block for an entry if and only if its bytes, position by position, announce it: checksum, format, texts, numbers, type |
| `TarWriter.BlockLayout` | src/native/runtime/src/liboliphaunt_archive_tar.c:474-546 | every byte of a written block outside its checksum, with modes 0600 and 0700, owner, group and time zero |
| `TarWriter.RecordLayout` | src/native/runtime/src/liboliphaunt_archive_tar.c:548-611 | a record is its block, the contents and zeros to whole blocks; which entries can be written at all |
| `TarWriter.EndLayout` | src/native/runtime/src/liboliphaunt_archive_tar.c:1019-1025 | the archive ends in 1024 zero bytes |
| `TarWriter.NameIff` | src/native/runtime/src/liboliphaunt_archive_tar.c:437-458 | a path fits if and only if it is short or has a slash to cut it at, and the last such slash is taken |
| `TarWriter.StoredPath` | src/native/runtime/src/liboliphaunt_archive_tar.c:474-510 | directories are stored with a final slash, files as they are |
| `ArchivePath.CanonicalRelativePath` | src/native/runtime/src/liboliphaunt_archive_tar.c:283-341 | the loop computes the canonical form: dots and extra slashes gone, absolute paths, dot-dot and paths outside the archive's trees refused |
| `ArchivePath.CanonicalIdempotent` | src/native/runtime/src/liboliphaunt_archive_tar.c:283-341 | a canonical path is its own canonical form |
| `ArchivePath.CanonicalOfJoin` | src/native/runtime/src/liboliphaunt_archive_tar.c:283-341 | every path built from ordinary components inside the archive is canonical, with or without a trailing slash |
| `RestoreRules.CanonicalIff` | src/native/runtime/src/liboliphaunt_archive_tar.c:283-341 | where a stored path leads, from its components: relative, without dot-dot, inside the data directory or the manifest itself, dots dropped; refused otherwise |
| `ArchivePath.JoinInjective` | src/native/runtime/src/liboliphaunt_archive_tar.c:283-341 | distinct component lists give distinct paths |
| `ArchiveCheck.PathTracker.Admit` | src/native/runtime/src/liboliphaunt_archive_tar.c:1363-1447 | one pass over three lists admits an entry if and only if all paths stay distinct and no file is an ancestor of another entry |
| `ArchiveCheck.VerdictIgnoresOrder` | src/native/runtime/src/liboliphaunt_archive_tar.c:343-435 | the verdict is the same for every order of the same entries |
| `Archive.WriteEntryRepresents` | src/native/runtime/src/liboliphaunt_archive_tar.c:1212-1300 | a consistent next entry always finds its place, and the staging tree stays exactly what the entries call for |
| `Archive.RepresentsUnique` | src/native/runtime/src/liboliphaunt_archive_tar.c:1212-1300 | a list of entries calls for one tree only |
| `Archive.ReadExact` | src/native/runtime/src/liboliphaunt_archive_tar.c:1234-1251 | exactly the bytes asked for, however the callback cuts them; early end and failure told apart |
| `Archive.ReadTrailer` | src/native/runtime/src/liboliphaunt_archive_tar.c:1302-1361 | accepts exactly whole zero blocks up to the end of input |
| `Archive.ReadNext` | src/native/runtime/src/liboliphaunt_archive_tar.c:1302-1500 | one entry with contents and padding, the end, or a refusal, as a function of the remaining bytes alone |
| `Archive.ProcessPhysicalArchive` | src/native/runtime/src/liboliphaunt_archive_tar.c:1302-1500 | for every fragmentation the restored tree is the one the archive's bytes determine |
| `RestoreRules.AcceptedIff` | src/native/runtime/src/liboliphaunt_archive_tar.c:1302-1500 | over all byte strings: a restore accepts the bytes and leaves this tree if and only if they are a row of records of consistent entries closed by zeros and the tree is the one those entries call for |
| `RestoreRules.TrailerIff` | src/native/runtime/src/liboliphaunt_archive_tar.c:1302-1345 | the end is at least two zero blocks and nothing else to the end of input |
| `RestoreRules.WriteEntryIff` | src/native/runtime/src/liboliphaunt_archive_tar.c:1212-1300 | a staging write fails exactly if a file is in the way, or for a file anything at its place |
| `ArchiveRoundTrip.ArchiveBuffer.AppendEntry` | src/native/runtime/src/liboliphaunt_archive_tar.c:548-629 | appends header, contents and padding of one entry, or nothing |
| `ArchiveRoundTrip.ArchiveBuffer.Finish` | src/native/runtime/src/liboliphaunt_archive_tar.c:1019-1025 | two zero blocks |
| `ArchiveRoundTrip.WrittenHeaderAnnounces` | src/native/runtime/src/liboliphaunt_archive_tar.c:1302-1361 | a stored entry's header announces the entry, and an unreadable directory's is refused |
| `ArchiveRoundTrip.RecordReads` | src/native/runtime/src/liboliphaunt_archive_tar.c:1302-1500 | a record followed by anything is taken as one entry of exactly its own bytes |
| `ArchiveRoundTrip.ReadWhatWasWritten` | src/native/runtime/src/liboliphaunt_archive_tar.c:1302-1500 | for every list of storable entries, reading what was written succeeds if and only if they are consistent and no directory is unreadable, and then the tree is theirs |
| `Wal.ParseWalFile` | src/native/runtime/src/liboliphaunt_archive_tar.c:817-849 | the three-part hexadecimal loop computes the reference position of a name |
| `Wal.VisitWalRange` | src/native/runtime/src/liboliphaunt_archive_tar.c:851-900 | visits exactly the reference list of names, for every accepted range |
| `Wal.ParseOfFormat` | src/native/runtime/src/liboliphaunt_archive_tar.c:851-900 | parsing undoes formatting for every position a name can express, and no 32-bit cast loses a bit |
| `Wal.FormatOfParse` | src/native/runtime/src/liboliphaunt_archive_tar.c:817-849 | formatting undoes parsing for every accepted name |
| `Wal.WalNamesAreTheRange` | src/native/runtime/src/liboliphaunt_archive_tar.c:851-900 | for every legal segment size: stop minus start plus one names, consecutive on one timeline, the first start and the last stop |
| `Wal.RangeIsDistinct` | src/native/runtime/src/liboliphaunt_archive_tar.c:851-900 | no name twice |
| `Wal.LegalSizes` | src/native/runtime/src/liboliphaunt_archive_tar.c:859-865 | the legal segment sizes are the powers of two from 1 MiB to 1 GiB |
| `Wal.HexDigitsAre` | src/native/runtime/src/liboliphaunt_archive_tar.c:817-849 | digits are 0 to 9 and upper-case A to F |
| `PgData.WalkSound` | src/native/runtime/src/liboliphaunt_archive_tar.c:682-771 | everything the walk stores is in the tree at that path with that content, and nothing on the way is skipped |
| `PgData.WalkComplete` | src/native/runtime/src/liboliphaunt_archive_tar.c:682-771 | every file and directory with no skipped name on its way is stored |
| `PgData.WalkParentsFirst` | src/native/runtime/src/liboliphaunt_archive_tar.c:682-771 | every directory comes before what it holds |
| `PgData.WalkHarmonious` | src/native/runtime/src/liboliphaunt_archive_tar.c:682-771 | no two entries of the walk collide |
| `PgBackup.AppendChildren` | src/native/runtime/src/liboliphaunt_archive_tar.c:682-713 | the recursive writer appends exactly the encodings of the walk, and fails exactly when the walk or an encoding does |
| `PgBackup.AppendNode` | src/native/runtime/src/liboliphaunt_archive_tar.c:715-771 | a directory's entry, then its children; a file's entry; a special node fails |
| `PgBackup.AppendSegments` | src/native/runtime/src/liboliphaunt_archive_tar.c:909-939 | the visitor appends every segment of exactly the segment size, and stops at the first that is missing or wrong |
| `PgBackup.AppendWalRange` | src/native/runtime/src/liboliphaunt_archive_tar.c:941-983 | the range's segments, below a real pg_wal directory |
| `PgBackup.AppendPgControl` | src/native/runtime/src/liboliphaunt_archive_tar.c:793-810 | the control file, if it is a regular file |
| `PgBackup.AppendDataFiles` | src/native/runtime/src/liboliphaunt_archive.c:468-478 | everything stored while PostgreSQL is in backup mode |
| `PgBackup.AppendClosingFiles` | src/native/runtime/src/liboliphaunt_archive.c:488-517 | WAL, backup_label, a nonempty tablespace_map, manifest, trailer |
| `PgBackup.BackupParts` | src/native/runtime/src/liboliphaunt_archive.c:468-517 | the two halves together are the archive |
| `PgBackup.ContentsHarmonious` | src/native/runtime/src/liboliphaunt_archive.c:468-517 | no two entries of a whole backup collide: what is added later was skipped by the walk, below directories it kept |
| `PgBackup.ContentsSound` | src/native/runtime/src/liboliphaunt_archive.c:468-517 | every entry has good names inside the archive and is not a postmaster file |
| `PgBackup.RestoreGivesBack` | src/native/runtime/src/liboliphaunt_archive.c:468-517 | for every tree, restoring its backup succeeds if and only if no stored directory has a slash-terminated path of 101 to 156 bytes, and then gives exactly the kept nodes, control file, WAL range, label, map and manifest, and nothing else |
| `PgBackup.RestoreBackup` | src/native/runtime/src/liboliphaunt_archive_tar.c:1302-1500 | the same end to end through the fragment reader |
| `BackupScope.VisibleIff` | src/native/runtime/src/liboliphaunt_archive_tar.c:631-678 | which paths the walk leaves out, name by name and at any depth, not through the filter |
| `BackupScope.RestoredPaths` | src/native/runtime/src/liboliphaunt_archive_tar.c:631-678 | for every path of the data directory: unless its names rule it out, the restored archive has the same file with the same contents there, or a directory, or nothing; what is ruled out and not stored apart is not there |
| `BackupScope.RestoredApart` | src/native/runtime/src/liboliphaunt_archive.c:468-517 | the restored archive has the label and map PostgreSQL gave, the control file, the manifest text, and every segment of the WAL range in full size, at their literal paths |
| `BackupScope.StoredOrder` | src/native/runtime/src/liboliphaunt_archive.c:468-517 | the archive holds the data directory, its walk, the control file, WAL, label, map and manifest in this order |
| `BackupScope.BackupSucceedsIff` | src/native/runtime/src/liboliphaunt_archive.c:468-517 | when a backup of a data directory succeeds: no special node among what is stored, a control file, a real pg_wal, a legal range with all segments in full size, and paths that fit |
| `LostDirectory.RestoredIffShort` | src/native/runtime/src/liboliphaunt_archive_tar.c:437-458 | for every kept directory name of up to 148 bytes at the top of a small data directory the backup succeeds, and its archive restores to exactly that directory if and only if the name has fewer than 93 bytes |
| `LostDirectory.BothLengthsOccur` | src/native/runtime/src/liboliphaunt_archive_tar.c:631-678 | there are such names on both sides |
| `ReadyScan.FirstReadyOfMessages` | src/native/runtime/src/liboliphaunt_protocol.c:284-325 | the reference verdict against the messages themselves: the first ReadyForQuery decides, at its last byte, with its first body byte or idle |
| `ReadyScan.FirstReadyStable` | src/native/runtime/src/liboliphaunt_protocol.c:284-325 | bytes already decided or already passed never need a second look |
| `ReadyScan.StreamScanner.Scan` | src/native/runtime/src/liboliphaunt_protocol.c:86-146 | whatever came before, a write is reported exactly when it completes the first ReadyForQuery, with its status, or the first invalid header, which fails the stream; COPY mode follows the messages, as CopyMode.CopyAfterMessages says |
| `ReadyScan.OutputBuffer.Scan` | src/native/runtime/src/liboliphaunt_protocol.c:284-325 | the rescan from the saved offset, also one past the end of an emptied output, with the cases in which it keeps the old offset and denies an earlier report |
| `ReadyScan.OutputBuffer.Write` | src/native/runtime/src/liboliphaunt_protocol.c:428-459 | before the first report, a write is reported exactly when the output so far holds a ReadyForQuery; after it, exactly when what lies behind the saved offset holds another or leaves fewer than five bytes over, also when the response has been copied out in between |
| `ReadyScan.OutputBuffer.CopyOut` | src/native/runtime/src/liboliphaunt_protocol.c:531-550 | the complete response is handed out and the output emptied, while the saved offset stays, which is never zero then |
| `ReadyScan.OutputBuffer.Answer` | src/native/runtime/src/liboliphaunt_protocol.c:606-616 | whatever an earlier call left behind, the next response is judged by its own writes alone |
| `ReadyScan.StaleOffsetIff` | src/native/runtime/src/liboliphaunt_protocol.c:284-325 | a scan from a saved offset reads the right status from every output if and only if the offset is zero; from any other it misses a ReadyForQuery that stands alone |
| `ReadyScan.StaleOffsetMisreads` | src/native/runtime/src/liboliphaunt_protocol.c:531-550 | after a response was copied out, a late message that is no ReadyForQuery changes the transaction status |
| `ReadyScan.StreamReportIsRight` | src/native/runtime/src/liboliphaunt_protocol.c:86-146 | over any writes the streaming scanner reports the write that holds the deciding byte |
| `ReadyScan.BufferReportIsRight` | src/native/runtime/src/liboliphaunt_protocol.c:284-325 | over any writes the buffered scanner reports the write that holds the ready byte, and nothing after an invalid header |
| `ReadyScan.ScannersAgree` | src/native/runtime/src/liboliphaunt_protocol.c:428-459 | for every byte stream and every cut into writes both scanners report the same write and status, and differ only on an invalid header |
| `ReadyScan.StreamScanner.ScanAll` | src/native/runtime/src/liboliphaunt_protocol.c:86-146 | a scanner fed one write after the other reports what the report function says, and is in the COPY mode of all the bytes together |
| `CopyMode.CopyAfterMessages` | src/native/runtime/src/liboliphaunt_protocol.c:108-142 | after messages without a ReadyForQuery COPY mode is that of the last CopyInResponse (71) or ErrorResponse (69), and unchanged if there is none |
| `CopyMode.CopyAfterReady` | src/native/runtime/src/liboliphaunt_protocol.c:108-142 | after a ReadyForQuery (90) it is off |
| `CopyMode.ScanMessages` | src/native/runtime/src/liboliphaunt_protocol.c:86-146 | a new scanner given the messages in any pieces is in that mode |
| `ReadyScan.OutputBuffer.WriteAll` | src/native/runtime/src/liboliphaunt_protocol.c:428-459 | a buffer fed one write after the other reports what the report function says |
| `ReadyScan.ScanBothWays` | src/native/runtime/src/liboliphaunt_protocol.c:428-459 | a new scanner and a new buffer, given the same writes, report the same write and status |
| `ReadyScan.ResponseIsRecognised` | src/native/runtime/src/liboliphaunt_protocol.c:428-459 | for every well-formed response in any chunks both report the write with its last byte |
| `ReadyScan.LeftoverHidesReady` | src/native/runtime/src/liboliphaunt_protocol.c:284-325 | two writes to one buffer, a ReadyForQuery and then five bytes of a longer message: the first is reported, the second scan denies it |
| `ReadyScan.BareReadyIsIdle` | src/native/runtime/src/liboliphaunt_protocol.c:306-307 | a ReadyForQuery without a status counts as idle |
| `StreamQueue.ChunkQueue.TryEnqueue` | src/native/runtime/src/liboliphaunt_protocol.c:165-227 | a chunk is queued exactly when it fits; the counter stays the sum of the chunks and below the limit |
| `StreamQueue.RoomIff` | src/native/runtime/src/liboliphaunt_protocol.c:165-170 | room means that the limit, 4 MiB by default, is not exceeded afterwards |
| `StreamQueue.ChunkQueue.Pop` | src/native/runtime/src/liboliphaunt_protocol.c:245-262 | first in, first out, and the underflow guard is never needed |
| `StreamQueue.ChunkQueue.AwaitRoom` | src/native/runtime/src/liboliphaunt_protocol.c:172-192 | the wait ends against a consumer that pops at least once per wake-up, with nothing lost |
| `StreamQueue.ChunkQueue.Enqueue` | src/native/runtime/src/liboliphaunt_protocol.c:229-243 | a write of any size is queued completely, whenever and however often the consumer pops meanwhile: popped bytes then queued bytes are the old queue then the write |
| `StreamQueue.ChunkQueue.PopSome` | src/native/runtime/src/liboliphaunt_protocol.c:245-262 | any number of pops keeps the order of bytes |
| `RawStream.StepKeeps` | src/native/runtime/src/liboliphaunt_protocol.c:940-1034 | every step of the backend thread, the caller and a thread that closes the handle keeps the bounded queue, the order of bytes, the scanner's view and the caller's outcome consistent |
| `RawStream.RunKeeps` | src/native/runtime/src/liboliphaunt_protocol.c:940-1034 | so in every interleaving |
| `RawStream.SuccessDeliversEverything` | src/native/runtime/src/liboliphaunt_protocol.c:940-1034 | on return 0 the callback got every queued byte once and in order, after the scanner saw a ReadyForQuery; those bytes are the response and what was queued after it if and only if no write was cut short with part of it queued |
| `RawStream.ExactIffNeitherTornNorLate` | src/native/runtime/src/liboliphaunt_protocol.c:940-1034 | on return 0 of a stream that began between two writes, the callback got exactly the bytes through the ready write if and only if no write was torn before it and none was queued between it and the return; without torn and late bytes, if and only if the stream began between two writes; without torn bytes, if and only if the late bytes happen to make up for those queued before the stream began |
| `RawStream.ResponseIsDelivered` | src/native/runtime/src/liboliphaunt_protocol.c:940-1034 | a run that delivers exactly the response |
| `RawStream.CarriedBytesAreMissing` | src/native/runtime/src/liboliphaunt_protocol.c:917-940 | a run that begins while a write is half queued and delivers only the other half of the response |
| `RawStream.LateBytesAreDelivered` | src/native/runtime/src/liboliphaunt_protocol.c:1009-1021 | a run in which a later write is delivered too |
| `RawStream.TornBytesAreDelivered` | src/native/runtime/src/liboliphaunt_protocol.c:172-192 | a run in which a close by another thread cuts a write short, its queued half is delivered, and the stream still succeeds |
| `RawStream.AbortDeliversPrefix` | src/native/runtime/src/liboliphaunt_protocol.c:1009-1034 | on CALLBACK_ABORTED the delivered chunks are a nonempty prefix of all that was queued, the rest was drained, and the scanner saw a ReadyForQuery without failing; what was queued is the response and what followed if and only if no write was torn |
| `RawStream.WaitingMeansPoppable` | src/native/runtime/src/liboliphaunt_protocol.c:165-192 | a producer never waits for room on an empty queue |
| `RawStream.ResultIff` | src/native/runtime/src/liboliphaunt_protocol.c:940-1034 | over every run: which of success, CALLBACK_ABORTED and failure the stream returns, from what happened in it |
| `RawStream.RejectedCopy` | src/native/runtime/src/liboliphaunt_protocol.c:953-968 | a caller that gave up during COPY: CopyFail, and Sync after an extended request, is fed if the slot is free, else the stream is given up; otherwise nothing is fed |
| `RawStream.RecoveryMessages` | src/native/runtime/src/liboliphaunt_protocol.c:955-968 | the messages fed for a caller that gave up, and the Terminate of a closing thread, byte for byte |
| `Requests.ValidateFrames` | src/native/runtime/src/liboliphaunt_protocol.c:20-47 | accepts exactly the nonempty concatenations of complete messages |
| `Requests.FramedRoundTrip` | src/native/runtime/src/liboliphaunt_protocol.c:20-47 | what it accepts is the encoding of its messages |
| `Requests.EncodedIsFramed` | src/native/runtime/src/liboliphaunt_protocol.c:20-47 | every encoding of messages is accepted and gives them back |
| `Requests.RequestClosesInput` | src/native/runtime/src/liboliphaunt_protocol.c:784-791 | true exactly when some message is a Query, Sync or Terminate |
| `Requests.CompletionCheck` | src/native/runtime/src/liboliphaunt_protocol.c:826-834 | true exactly when such a message is the last one |
| `Requests.CopyCheck` | src/native/runtime/src/liboliphaunt_protocol.c:845-857 | accepts exactly CopyData with at most one ending message, last, and says whether it is there |
| `Feed.InputSession.SetInput` | src/native/runtime/src/liboliphaunt_protocol.c:461-487 | only an empty slot is filled |
| `Feed.InputSession.Read` | src/native/runtime/src/liboliphaunt_protocol.c:395-426 | the front of the unread bytes, and the slot is empty once all are read |
| `Feed.InputSession.Feed` | src/native/runtime/src/liboliphaunt_protocol.c:807-875 | accepted, busy or rejected by the reference verdict; only an accepted feed changes anything |
| `Feed.InputSession.Start` | src/native/runtime/src/liboliphaunt_protocol.c:877-938 | a stream starts or is refused; a busy slot still uses up a token |
| `CopyMode.FeedOutcomes` | src/native/runtime/src/liboliphaunt_protocol.c:815-866 | accepted and busy, each if and only if the messages, by literal types and size, and the stream's flags allow it |
| `CopyMode.BrokenFeedIsRejected` | src/native/runtime/src/liboliphaunt_protocol.c:823-825 | bytes that are no sequence of complete messages are rejected |
| `CopyMode.FeedEffect` | src/native/runtime/src/liboliphaunt_protocol.c:855-866 | what an accepted feed changes, in COPY mode and outside |
| `CopyMode.StartOutcomes` | src/native/runtime/src/liboliphaunt_protocol.c:891-938 | when a stream starts, and every field afterwards, also with a busy slot |
| `CopyMode.CopyInOpensInput` | src/native/runtime/src/liboliphaunt_protocol.c:108-112 | a Query closes the input; once a CopyInResponse has been scanned, CopyData is accepted |
| `Feed.RunKeeps` | src/native/runtime/src/liboliphaunt_protocol.c:395-487 | the input invariant holds over every run of any number of streams |
| `Feed.InputIsConserved` | src/native/runtime/src/liboliphaunt_protocol.c:395-487 | in every run the bytes read, then those in the slot, are the accepted inputs in order; busy and rejected feeds contribute nothing |
| `Feed.TokenNamesOneStream` | src/native/runtime/src/liboliphaunt_protocol.c:913-920 | two accepted feeds went to the same stream exactly when their tokens are equal, so a stale token is never accepted |
| `Feed.CompletedInputTakesOnlyCopy` | src/native/runtime/src/liboliphaunt_protocol.c:836-866 | in every run, once a request with a Query, Sync or Terminate has been accepted for a stream outside COPY mode, it was the last of its kind, and every later accepted feed to that stream is COPY data or its end, in COPY mode |
| `Feed.ClosedStays` | src/native/runtime/src/liboliphaunt_protocol.c:859-866 | closed input stays closed until the next stream |
| `Feed.TerminateClosesIff` | src/native/runtime/src/liboliphaunt_protocol.c:859-866 | an accepted Terminate leaves the input closed if and only if it was closed or the stream was not in COPY mode |
| `Feed.TerminateLeavesCopyOpen` | src/native/runtime/src/liboliphaunt_protocol.c:859-866 | a run that ends in an accepted Terminate with the input still open, although include/oliphaunt.h says Terminate closes input |
| `Replies.ContainsError` | src/native/runtime/src/liboliphaunt_archive.c:190-212 | malformed, or whether any message is an error |
| `Replies.Confirms` | src/native/runtime/src/liboliphaunt_backup_state.c:74-116 | confirmed exactly for complete, error-free messages with a command completion and one final valid ReadyForQuery; the tag matches exactly when it is the only one |
| `Replies.ValidateRow` | src/native/runtime/src/liboliphaunt_backup_state.c:178-213 | accepts exactly the bodies that parse as the expected columns with nothing left over |
| `Replies.CopyRow` | src/native/runtime/src/liboliphaunt_archive.c:151-171 | copies the parsed values of a validated row |
| `Replies.ValuesRoundTrip` | src/native/runtime/src/liboliphaunt_backup_state.c:178-213 | every encoded row, nulls included, is read back |
| `Replies.CopySingleRow` | src/native/runtime/src/liboliphaunt_archive.c:85-188 | the values of the only data row of an error-free, well-formed response, and nothing otherwise |
| `Replies.SingleRowUnique` | src/native/runtime/src/liboliphaunt_archive.c:85-188 | a response is a single row in at most one way |
| `ReplyRules.ConfirmedIff` | src/native/runtime/src/liboliphaunt_backup_state.c:74-116 | which messages complete a command, by literal types and status bytes |
| `ReplyRules.OnlyCommandIff` | src/native/runtime/src/liboliphaunt_backup_state.c:74-116 | exactly one completed command, with this tag |
| `ReplyRules.RowTag` | src/native/runtime/src/liboliphaunt_archive.c:240-250 | the tag a backup query's command must complete with, as text |
| `ReplyRules.SingleRowIff` | src/native/runtime/src/liboliphaunt_archive.c:85-188 | exactly one DataRow and no error |
| `ReplyRules.ColumnBytes` | src/native/runtime/src/liboliphaunt_backup_state.c:190-212 | a column is its length and bytes, or a length of minus one for a null |
| `ReplyRules.RowIff` | src/native/runtime/src/liboliphaunt_backup_state.c:178-213 | a row body is its column count and the encoded columns, and nothing else |
| `BackupMode.Handle.StartBackup` | src/native/runtime/src/liboliphaunt_archive.c:214-281 | not entered exactly when PostgreSQL reported an error; facts exactly from a confirmed single row that has them |
| `BackupMode.Handle.StopBackup` | src/native/runtime/src/liboliphaunt_archive.c:283-355 | exit confirmed exactly when the response completes without error, whatever its row says; facts exactly from a row that has them |
| `BackupMode.Handle.CleanUp` | src/native/runtime/src/liboliphaunt_archive.c:372-404 | one emergency stop if leaving is outstanding; poison exactly when it is not confirmed |
| `BackupMode.Handle.CopyAndStop` | src/native/runtime/src/liboliphaunt_archive.c:468-483 | stores the data files and stops exactly when all were stored |
| `BackupMode.Handle.CloseBackup` | src/native/runtime/src/liboliphaunt_archive.c:488-517 | a success is the archive of the tree with the facts of the two queries |
| `BackupMode.Handle.FinishBackup` | src/native/runtime/src/liboliphaunt_archive.c:468-531 | once backup mode was entered: one or two stops, the second only after a failed first, and poison exactly when the last is not confirmed |
| `BackupMode.Handle.Backup` | src/native/runtime/src/liboliphaunt_archive.c:436-531 | for every outcome of every query and append, and whatever other threads make of the handle between them: an unpoisoned handle is not in backup mode, at most two stops, none after a confirmed one, poison exactly after an unconfirmed last stop and for good; success is the archive of the tree with the returned facts, and comes exactly when both replies have theirs and the whole archive can be written; a handle is poisoned with no start handed to PostgreSQL if and only if the start query finds it refusing, and with no query handed over at all if and only if the emergency stop does too |
| `BackupRows.StartColumns` | src/native/runtime/src/liboliphaunt_archive.c:236-276 | the start reply's first column is the first WAL file, its second the segment size in decimal, each up to its first zero byte |
| `BackupRows.StopColumns` | src/native/runtime/src/liboliphaunt_archive.c:283-301 | the stop reply's columns are the last WAL file, the label and the tablespace map, which may be null |
| `BackupRows.RowsSuffice` | src/native/runtime/src/liboliphaunt_archive.c:256-301 | which rows are enough, both ways |
| `BackupRows.SizeIff` | src/native/runtime/src/liboliphaunt_archive.c:262-270 | a segment size is a nonzero number of at most 64 bits, by the place value of its digits |
| `BackupRows.SuccessFacts` | src/native/runtime/src/liboliphaunt_archive.c:436-531 | a successful backup uses exactly the columns of its two replies |
| `BackupMode.Handle.QueryStart` | src/native/runtime/src/liboliphaunt_protocol.c:586-613 | a query is handed to PostgreSQL exactly when the handle is not poisoned, a call on it can be opened, it is active and not streaming, its backend runs and its input slot is free |
| `BackupMode.Handle.QueryStop` | src/native/runtime/src/liboliphaunt_protocol.c:586-613 | the same for the stop; a confirmed stop means backup mode was left |
| `Errors.ErrorState.Begin` | src/native/runtime/src/liboliphaunt_error.c:57-71 | opens a scope; only an outermost one forgets the completed error |
| `Errors.ErrorState.Set` | src/native/runtime/src/liboliphaunt_error.c:137-165 | sets or clears the innermost scope, or the completed error outside any, and writes the shared slot |
| `Errors.ErrorState.Capture` | src/native/runtime/src/liboliphaunt_error.c:73-89 | fills only a scope without an error, from a handle's slot, and does nothing outside any scope |
| `Errors.ErrorState.End` | src/native/runtime/src/liboliphaunt_error.c:91-135 | a failure moves its error outwards, never an empty one; a success changes nothing outside |
| `Errors.ErrorState.CopyLast` | src/native/runtime/src/liboliphaunt_error.c:167-192 | innermost error, else completed, else a shared slot, the handle's only while a call on it can be opened; cut to the capacity, full length returned |
| `Errors.ErrorState.Run` | src/native/runtime/src/liboliphaunt_error.c:57-165 | for every tree of operations, with other threads writing before every shared read, the error afterwards is exactly the reference one and a success leaves none |
| `Errors.LastDecides` | src/native/runtime/src/liboliphaunt_error.c:57-165 | the reference error is that of the last own message or failed inner operation, whatever successful ones follow |
| `Errors.LastDecidesReport` | src/native/runtime/src/liboliphaunt_error.c:91-135 | and that is what the failed operation reports |
| `Errors.SilentReportsShared` | src/native/runtime/src/liboliphaunt_error.c:110-127 | without an error of its own it reports the shared slot, and if that is empty that it failed without setting an error |
| `Errors.LastEvent` | src/native/runtime/src/liboliphaunt_error.c:137-165 | what a message, no message, an empty message and a failed inner operation do |
| `Errors.CaptureFillsGap` | src/native/runtime/src/liboliphaunt_error.c:73-89 | a capture fills a gap from a handle's slot and changes nothing else |
| `Errors.ErrorState.FailAndRead` | src/native/runtime/src/liboliphaunt_error.c:167-216 | after a failed outermost operation any number of foreign writes leave the reported text unchanged, nonempty and whole |
| `Extensions.Resolver.VisitExtension` | src/native/rust-bindings/src/extension.rs:155-199 | the recursive visit with its three collections computes the reference visit, and ends for every catalog |
| `Extensions.Gather` | src/native/rust-bindings/src/extension.rs:86-108 | succeeds exactly for acceptable packages that agree per extension, and gives the request as an ordered map; an error names the first request that cannot be met and why |
| `Extensions.Resolve` | src/native/rust-bindings/src/extension.rs:86-122 | the reference answer for the gathered request, or the error of the first request that cannot be met |
| `Extensions.VisitOrdered` | src/native/rust-bindings/src/extension.rs:155-199 | a successful visit keeps names distinct and dependencies before dependents |
| `Extensions.VisitCycle` | src/native/rust-bindings/src/extension.rs:162-170 | a cycle error names an extension that the request reaches and that depends on itself |
| `Extensions.VisitSound` | src/native/rust-bindings/src/extension.rs:171-194 | requested extensions keep their package, every other package was requested for something of the same product above it, and a conflict error is a real one between two requested packages |
| `Extensions.VisitInherits` | src/native/rust-bindings/src/extension.rs:171-186 | what was not requested has the package one of its dependents passes on |
| `Extensions.AnswerIsRight` | src/native/rust-bindings/src/extension.rs:86-122 | all of it for the whole request: a resolution, a cycle the request reaches, or a conflict between two requested packages |
| `Extensions.ResolvedAgrees` | src/native/rust-bindings/src/extension.rs:171-191 | a resolution with a conflict does not exist: whatever is installed with a package, each direct dependency of its product that was requested was requested with that package |
| `Extensions.DirectConflictIsRefused` | src/native/rust-bindings/src/extension.rs:187-191 | a request with two packages along a direct dependency of one product is never resolved |
| `Extensions.AcceptableIff` | src/native/rust-bindings/src/extension.rs:88-99 | a package is valid exactly for the extension's product, with both versions and some resources |
| `Extensions.AskableIff` | src/native/rust-bindings/src/extension.rs:86-108 | a request can be answered exactly if every package is acceptable and no extension is asked for in two ways |
| `Extensions.ResolutionIsReachable` | src/native/rust-bindings/src/extension.rs:86-122 | the result is exactly what the request reaches, and nothing in it depends on itself, so no cyclic request succeeds |
| `Extensions.OrderDoesNotMatter` | src/native/rust-bindings/src/extension.rs:86-122 | the same extensions in any order, repeated or not, give the same answer |
| `Extensions.AllFitIffAssignable` | src/native/rust-bindings/src/extension.rs:171-194 | every dependency that was not requested fits all its dependents if and only if catalog and request admit an assignment of packages in which that is so |
| `Extensions.DisagreementIsSilent` | src/native/rust-bindings/src/extension.rs:171-194 | two dependents with different packages of one product: the first wins and no conflict is reported |
| `Extensions.DisagreementIsUnassignable` | src/native/rust-bindings/src/extension.rs:171-194 | that request admits no assignment |
| `Wire.FrameReader.NextFrame` | src/query/rust/src/wire.rs:23-28 | the first complete message, nothing yet, or an error that leaves the buffer alone |
| `Wire.FrameReader.Push` | src/query/rust/src/wire.rs:30-37 | all messages the bytes so far complete and the remainder; an error loses those of the same call |
| `Wire.SplitConserves` | src/query/rust/src/wire.rs:18-42 | messages followed by the remainder are the input |
| `Wire.FrameReader.PushEach` | src/query/rust/src/wire.rs:18-42 | a reader fed one chunk after the other returns what the push function says |
| `Wire.PushAllIsSplit` | src/query/rust/src/wire.rs:18-42 | any sequence of pushes gives what one push of all bytes gives, or fails when it does |
| `Wire.ChunksDoNotMatter` | src/query/rust/src/wire.rs:18-42 | two cuts of the same bytes give the same messages and remainder, or are both refused |
| `Wire.ReadTwice` | src/query/rust/src/wire.rs:18-42 | two readers fed the same bytes in different pieces end with the same messages and the same bytes left |
| `Wire.TypedFronts` | src/query/rust/src/wire.rs:53-84 | below the size limit the Rust and the C reading of a typed message agree |
| `WireRules.BigEndian` | src/query/rust/src/wire.rs:53-84 | a length is read most significant byte first |
| `WireRules.MessageBytes` | src/query/rust/src/wire.rs:187-193 | a message is its type byte, its length with the length field, and its body |
| `WireRules.TypedIsWhole` | src/query/rust/src/wire.rs:53-84 | a typed message of at most 128 MiB is taken whole |
| `WireRules.UntypedIsWhole` | src/query/rust/src/wire.rs:53-68 | so is an untyped packet of 8 bytes or more, below 16 MiB |
| `WireRules.SslRequestIsWhole` | src/query/rust/src/wire.rs:53-68 | an SSLRequest is one message of eight bytes |
| `WireRules.MalformedIff` | src/query/rust/src/wire.rs:53-84 | which lengths can never become a message |
| `WireRules.PartialIff` | src/query/rust/src/wire.rs:53-84 | which bytes are still incomplete |
| `Wire.ValidateRequest` | src/native/broker/src/mobile.rs:206-229 | accepts exactly one zero-terminated Query, or extended messages ended by a single empty Sync |
| `Wire.CompletionCount` | src/native/broker/src/pgwire.rs:104-134 | counts the Query and Sync messages of exactly the complete requests it accepts |
| `WireRules.ExchangeIff` | src/native/broker/src/mobile.rs:206-229 | one exchange, by literal types |
| `WireRules.CountableIff` | src/native/broker/src/pgwire.rs:104-134 | the requests the desktop broker counts, by literal types |
| `WireRules.BoundaryCount` | src/native/broker/src/pgwire.rs:104-134 | the count is the number of Query and Sync messages |
| `Wire.OneExchangeCompletesOnce` | src/native/broker/src/mobile.rs:206-229 | what the mobile validator accepts has completion count one and, for the C runtime, closes its input with its last message |
| `Broker.StepKeeps` | src/native/broker/src/server.rs:216-265 | every step of clients, cancel requests, owner and worker keeps slot, key, channel, worker and session consistent |
| `Broker.RunKeeps` | src/native/broker/src/server.rs:216-265 | so in every interleaving |
| `Broker.ExecuteIsIsolated` | src/native/broker/src/server.rs:227-265 | the session an Execute runs on has been touched since its open by its own client only |
| `Broker.ClosingRunsNothing` | src/native/broker/src/server.rs:228-233 | once the broker closes no command begins to run |
| `Broker.OwnerOutcomes` | src/native/broker/src/server.rs:266-283 | a shutdown ends the worker and drops what waits; a backup changes nothing a client sees |
| `Broker.EndedStays` | src/native/broker/src/server.rs:270-283 | an ended worker takes no command any more |
| `Broker.RepliesAreSent` | src/native/broker/src/server.rs:216-265 | after each command of the worker the client's reply is there; a reset that is not skipped leaves an untouched session or closes the broker |
| `Broker.CancelConcernsHolder` | src/native/broker/src/server.rs:393-407 | from the match of its key until delivery, a cancel request concerns the one client holding the slot: only its commands run or wait |
| `Broker.CancelArmedIff` | src/native/broker/src/server.rs:401-404 | a cancel request goes on to interrupt the backend if and only if a command of its own client runs or waits when it looks at the flag, or the flag was left up by a command that was never sent or was dropped by the shutdown |
| `Broker.DeliveredWasArmed` | src/native/broker/src/server.rs:401-404 | the backend is interrupted for a cancel request only if that request has seen the flag up |
| `Broker.StaleFlagArmsCancel` | src/native/broker/src/server.rs:527-533 | a run in which a failed socket clone leaves the flag up across a reset, and the cancel request of the next client goes on to interrupt the idle backend |
| `Broker.StartupIsFreshIff` | src/native/broker/src/server.rs:246-265 | a startup meets an untouched session if and only if no earlier reset was skipped by a closing broker or failed to reopen |
| `Broker.ClosingStartupIsNotFresh` | src/native/broker/src/server.rs:246-250 | a run in which a closing broker skips the reset and the next client's startup meets the previous client's session |
| `Broker.ClosingStartupCanBeFresh` | src/native/broker/src/server.rs:451-494 | a run in which a closing broker still hands over an untouched session |

## Left out

- PostgreSQL itself, cancellation flags and latches: foreign code, represented by nondeterministic answers.
- Real file system calls, locks, fsync, rename, permissions and Windows branches: the tree is abstract.
- Timeouts, sleeps, process exit, scheduling fairness and allocation failure: outside the safety claims.
- Streaming a backup through a write callback: the archive is one growing buffer here.
- Restore identity checks on the manifest after unpacking (`src/native/runtime/src/liboliphaunt_archive.c:587-659`): a byte comparison.
- Error message texts other than those of error attribution: only whether and where an operation fails is modelled.
- Startup packet parameters, IPC framing and the Rust query layer: they would only add easier members.
- BackupMode.SegmentSize: accepts digits only; leading blanks and signs that strtoull also takes are not modelled, because PostgreSQL prints plain digits here.
- PgData.WellFormed: a listing's names are distinct, nonempty and free of slashes and zero bytes, which the file system guarantees.
- Lifecycle.MayTouch: the backend thread, which uses the handle without a call until it is joined, is not among the threads; the closer joins it before it waits for calls and frees the handle.
- RawStream.ExactIffNeitherTornNorLate: for a stream with carried and torn bytes both, whether what it delivers happens to equal the response is not characterised.
- BackupMode.Handle.Backup: a second backup on the same handle at the same time, which could stop or poison the first, is not among what other threads may do.
- Broker.LookStep: only cancel requests with a key are modelled; the interrupts that a leaving client, the owner and the stopping server send on the same flag are not.
- Broker: the three-second wait for an abandoned stream, which ends the process, is the end of a run here.
- RawStream.Init: the request has already been placed in the input slot; the refusals before that are in Feed.InputSession.Start.
- Errors: a scope that ends out of order is a programming error the code reports and no well-nested tree reaches.
