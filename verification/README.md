# Verification of the `cmpatch` command line

This project models the stateful and the encoding parts of the `cmpatch` CLI in Dafny and
proves what the program relies on them for. `dafny verify dfyconfig.toml` checks all of it.

* **Sharing one login.** `CredentialProtocol` is the refresh of a stored session as it is run
  by any number of overlapping `cmpatch` processes: one credential file, one lock file, one
  clock, servers that rotate refresh tokens and revoke a session when a used one comes back.
  Every file operation and every request is one atomic step, and steps interleave freely.
  `CredentialSafety` and `CredentialTheorems` prove what every execution keeps,
  `CredentialRemoval` when a login is removed;
  `CredentialLock` is the code of the lock and of the file, each method shown to take the
  protocol's steps with arbitrary steps of other runs between its own.
* **Retrying.** `Http` is the retry loop and the one refresh above it, against a server that
  replays by idempotency key and a network that loses requests and replies.
* **Hashing a package.** `ArchivePaths`, `Encoding`, `PackageHash` and `ZipDirectory` are the
  path normaliser, UTF-8 and `JSON.stringify`, the signed preimage, and the byte-level walk of
  a ZIP's central directory; `BundleHash` puts them together. `PreimageReader` reads a preimage
  back, and `ZipWalk` says what a directory must be like to be walked. `TarReader` is the ustar reader,
  `TarEnds` when its loop ends, `TarFormat` the archives it is meant for.
* **Restoring a Fly backup.** `RestoreRecipes` generates the finish and undo recipes from a
  restore record; `FlyWorld` gives the commands a meaning over machines, volumes, snapshots and
  databases, in which commands fail half-way and a `pg_restore` can outlive its connection;
  `RestoreFlow` is the restore that writes the record. `RestoreTheorems` proves the recipes,
  `RestoreAttempts` what becomes of following them more than once, `UndoChecks` what an undo
  checks when the snapshot may hold anything, and `RestoreSmoothly` that a restore nothing
  disturbs gets to its end.
* **Files.** `BackupManifest`/`ManifestTheorems` and `FlyToml`/`TomlTheorems` are the backup
  manifest and the `fly.toml`, written and read back, `ScalarReading` the other forms a saved
  `fly.toml` may have; `FlyInstall` is what an install accepts and so writes, `CompanyNames` and
  `KeyWriting` what it makes of a company's name and of a printed access key.
* **Arguments.** `Flags` is the parser of command-line flags, `Argv` the readers, removers and
  redactors that look at raw argv beside it, `ArgvTheorems` their agreement, `FlagWriting`
  command lines written and parsed back, `Shell` the printer
  of command lines and the shell that reads them.
* **Interrupts.** `Interrupts` is the state machine of Ctrl-C, signals, clean-up hooks, spinner
  steps and the wrapper lent to `process.exit`; `InterruptManager` is the module's code, and
  `InterruptOrder` tells who is innermost from the calls that were made.
* **Paging and prompting.** `Paging` holds the two loops over a paged listing,
  `NamedResources` the picks and matches by name, `ResourceWalk` the walk from team to app to
  deployment, `InteractiveFlags` the loop that asks for missing flags.

`Wrappers`, `Seqs`, `Strings` and `TextLines` hold what the others share.

Each loop of the program is a method with a loop, proved equal to a specification function;
the theorems are lemmas about those functions.

## What turned out otherwise than promised

* The lock keeps a store safe exactly when its logins are all refreshable or all tokens
  (`CredentialTheorems.SafeExactlyWhenUniform`). A rejected token is removed without the lock
  (`cli/src/authenticatedRequest.ts:78-83`); that removal rewrites the whole file and can put a
  session back that another run has refreshed meanwhile.
* `hasBooleanOption` and the parser disagree exactly when an on-spelling is followed by a last
  `=false` (`ArgvTheorems.HasBooleanOptionAgrees`, `ArgvTheorems.LastSpellingOff`), although the
  file's header says that no pre-parse decision can disagree with the parse.
* The resolver reports a repeated release label only when the repetition is on the first one's
  page (`Paging.ResolverExactly`; `Paging.RepeatAcrossPages` is such a listing).
* The tar loop need not end. After a size field from -1023 to -512 (`parseInt` accepts the
  sign) it stands still, below that it goes back (`TarEnds.RoundMoves`); `TarEnds.NeverEnds`
  is an archive on which it runs for ever. It ends if and only if it has ended after twice as
  many rounds as there are blocks, and two (`TarEnds.EndsExactly`), and always when no size
  field is -512 or less (`TarEnds.UnsignedEnds`).
* A matching header whose negative size reaches back before the archive's start gives back
  bytes no header declares, since `subarray` counts a negative end from the back
  (`TarReader.SignedSlice`, `TarEnds.ReturnsUndeclared`).
* A validation whose count could not be read is recorded as a mismatch, and finishing is then
  withheld from a restore that may be good (`RestoreTheorems.WithheldFromAGoodRestore`,
  `RestoreFlow.UnreadableCountStops`).
* A recipe may be followed again from the top only while Patch is held: a finish recipe that
  drops, followed twice, drops the database under the live Patch
  (`RestoreAttempts.FinishingTwice`). Any attempts are safe if and only if no drop is sent
  while Patch has machines (`RestoreAttempts.AttemptsAreSafeExactlyWhen`).
* A team or app that was spelled on the command line so that none the server lists answers
  to it is asked about all the same, or replaced by the only one
  (`ResourceWalk.AskedExactlyWhen`), and the pick is recorded in vain: the words of the command line win at the next parse. A pick reaches it if
  and only if its name was not spelled, or a listed resource answers to what was
  (`ResourceWalk.PicksArriveExactlyWhen`, `ResourceWalk.SpelledPickIsLost`), although recording
  a pick is meant to keep the old name out of the next parse.

## Model

| member | source | states |
|---|---|---|
| `CredentialSafety.MutualExclusion` | cli/src/credentialStore.ts:168-204 | in every execution in which no lock file reaches the stale age, at most one run holds the lock, and a lock file is removed or changed only by the run that holds it, so never by one that timed out and went ahead without it |
| `CredentialSafety.LockInvStep` | cli/src/credentialStore.ts:176-203 | each single step keeps: the lock file belongs to the one run whose `held` is true |
| `CredentialSafety.NothingReused` | cli/src/authenticatedRequest.ts:86-111 | whatever run acts next, no refresh token it presents is a used one of a live session |
| `CredentialSafety.InvStep` | cli/src/authenticatedRequest.ts:60-113 | every step of a calm execution (any run, the clock, a session ending on the server) keeps the protocol's invariant: one holder, current logins, nothing reused |
| `CredentialTheorems.OneRefreshPerGeneration` | cli/src/authenticatedRequest.ts:86-111 | a run that came through the lock ends with a newer session than it loaded, and the generation it loaded was presented exactly once in the whole execution: by it if it refreshed, by another run if it adopted |
| `CredentialTheorems.EveryRefusedRunGetsASession` | cli/src/authenticatedRequest.ts:86-113 | without lost requests no run whose first request was refused ends without a session |
| `CredentialTheorems.UniformIsSafe` | cli/src/authenticatedRequest.ts:78-111 | with only refreshable logins, or only tokens, in the store, no execution presents a used refresh token to a live session |
| `CredentialTheorems.TokenRemovalUndoesARefresh` | cli/src/authenticatedRequest.ts:78-83 | from every store with a token login and a refreshable one there is an execution in which the unlocked removal brings a used refresh token back and it is presented |
| `CredentialTheorems.SafeExactlyWhenUniform` | cli/src/authenticatedRequest.ts:78-111 | a store is safe if and only if its logins are all of one kind |
| `CredentialRemoval.RemovedExactlyWhenDenied` | cli/src/authenticatedRequest.ts:91-109 | in every calm execution from a store of refreshable logins: a run whose refresh was not granted leaves no login for its server when it is done, and a login is gone only after such a refusal for its server |
| `CredentialRemoval.RejectedTokenIsForgotten` | cli/src/authenticatedRequest.ts:76-83 | a token login that is rejected is dropped from the file, and nothing else changes |
| `CredentialRemoval.StaleLockIsBroken` | cli/src/credentialStore.ts:178-196 | a waiter breaks a stale lock file and takes the lock; a fresh one it leaves alone |
| `CredentialRemoval.TimedOutGoesOn` | cli/src/credentialStore.ts:178-204 | past its deadline a waiter presents its token without the lock, and the lock file stays |
| `CredentialRemoval.AcceptedTouchesNothing` | cli/src/authenticatedRequest.ts:60-74 | a run whose request is accepted, or without a login, changes nothing that is shared |
| `CredentialLock.Files.AcquireLock` | cli/src/credentialStore.ts:178-196 | the waiting loop refines the protocol: its file operations among arbitrary steps of others are protocol steps, and it ends with the lock file its own or the deadline past |
| `CredentialLock.Files.ReleaseLock` | cli/src/credentialStore.ts:198-203 | only a run that holds the lock removes the file |
| `CredentialLock.Files.SaveStoredCredential` | cli/src/credentialStore.ts:91-99 | the file becomes what was read with the one entry replaced; what others wrote in between is lost |
| `CredentialLock.Files.RemoveStoredCredential` | cli/src/credentialStore.ts:101-108 | the same for a removal |
| `Http.AuthorizationKeepsKey` | cli/src/authenticatedRequest.ts:238-251 | setting the authorization header changes neither the idempotency key nor whether there is one |
| `Http.SleepsBounded` | cli/src/http.ts:244-248 | no delay exceeds the maximum, and the backoff delays sum to at most base·(2^n - 1) |
| `Http.BackoffGrows` | cli/src/http.ts:244-248 | the delay starts at the base and doubles up to the maximum |
| `Http.SecondsAreRead` | cli/src/http.ts:220-232 | `Retry-After` in digits, white space around it, is so many seconds |
| `Http.RetriedOnly` | cli/src/http.ts:131-170 | a reply is retried exactly when none came, when it is a 409 that says when to come back, or when the server failed without a word; never a success |
| `Http.OutcomeExactly` | cli/src/http.ts:146-199 | which replies give nothing, JSON, text, a problem or a status, each exactly |
| `Http.Server.Fetch` | cli/src/http.ts:131-143 | one attempt, lost on either way or handled: the server executes a keyed mutation at most once, and a success that comes back is the stored response |
| `Http.Request` | cli/src/http.ts:117-199 | the loop sends one and the same request at most `maxAttempts` times, sleeps exactly after the replies that call for it, stops only when the last reply does not call for a retry or the attempts are used up, and leaves each keyed mutation executed at most once |
| `Http.PerformAuthenticatedRequest` | cli/src/authenticatedRequest.ts:115-137 | the same with the access token in place: all attempts carry the caller's headers with just that token put in, or unchanged without one, and so the caller's key, and a success is the response of the one execution |
| `Http.AuthenticatedRequest` | cli/src/authenticatedRequest.ts:60-113 | at most twice `maxAttempts` sends, under one key: first with the token at hand, then, exactly when a stored login was refused and there is a new session, with the new session's; a second call only after a stored login was refused and refreshed; the mutation runs at most once throughout; the error is the last reply's, the refresh's own, or that the login is gone |
| `ArchivePaths.NormalizeMeans` | cli/src/packageHash.ts:46-80 | the text checks on the normalised path accept, skip and refuse exactly by where a segment-by-segment walk of the path leads |
| `ArchivePaths.AcceptedPath` | cli/src/packageHash.ts:46-80 | a returned path is relative, has no empty, `.`, `..` or backslash part, and leads from any directory where the entry's path leads |
| `ArchivePaths.AcceptedIsFixed` | cli/src/packageHash.ts:46-80 | a returned path is a fixed point of the function |
| `ArchivePaths.ClimbingIsRefused` | cli/src/packageHash.ts:61-67 | a path that climbs above the root is never returned |
| `ArchivePaths.ReduceResolves` | cli/src/packageHash.ts:57 | `path.posix.normalize` of a relative path leads where the path leads, from every directory |
| `Encoding.Utf8Injective` | cli/src/packageHash.ts:28 | two texts with the same UTF-8 bytes are the same |
| `Encoding.StringifyInjective` | cli/src/packageHash.ts:38-41 | two lists of strings with the same JSON are the same |
| `PreimageReader.SortedByFirstDifference` | cli/src/packageHash.ts:33-35 | the entries come out, none lost or added, so that of each two the earlier ends first or has the smaller byte where they part |
| `PackageHash.SortedUnique` | cli/src/packageHash.ts:33-35 | the byte order leaves one order only |
| `PackageHash.ManifestEntryInjective` | cli/src/packageHash.ts:24 | `path:digest` determines both, whatever colons the path holds |
| `PackageHash.PreimageExactlyContents` | cli/src/packageHash.ts:11-44 | two accepted archives have the same signed preimage if and only if they count the same files |
| `PackageHash.PreimageExactlyFiles` | cli/src/packageHash.ts:11-44 | for archives the directory check accepts: if and only if they are the same map from path to digest |
| `PreimageReader.Utf8Reads` | cli/src/packageHash.ts:28 | a decoder written from section 3 of RFC 3629 gives every text back |
| `PreimageReader.ArrayReads` | cli/src/packageHash.ts:38-41 | a JSON reader written from RFC 8259 gives every list of strings back |
| `PreimageReader.PreimageReadsBack` | cli/src/packageHash.ts:11-44 | read so, the preimage of an accepted archive is exactly its counted files with their digests, in the byte order of `path:digest` |
| `PackageHash.PreimageIgnoresOrder` | cli/src/packageHash.ts:17-41 | archives with the same entries in any order have the same preimage |
| `PackageHash.SkippedExactly` | cli/src/packageHash.ts:46-80 | the normaliser skips exactly directories, `__MACOSX` trees and `.DS_Store` files, by where their paths lead |
| `PackageHash.PreimageIgnoresSkipped` | cli/src/packageHash.ts:46-80 | adding or removing such an entry leaves the preimage as it is |
| `PackageHash.SkippedEntriesDoNotShow` | cli/src/packageHash.ts:49-80 | and the counted files |
| `ZipDirectory.LocateEndOfCentralDirectory` | cli/src/packageHash.ts:125-140 | on any bytes every read is in range and the end record found is the one at the highest offset |
| `ZipDirectory.ReadEntry` | cli/src/packageHash.ts:88-107 | one central directory header is read in range, or refused as the walk is meant to refuse it |
| `ZipDirectory.CheckName` | cli/src/packageHash.ts:112-121 | after the check, the first refusal among this name and any rest is the one reported, or is to be found in the rest against the set handed on |
| `ZipDirectory.CheckEntry` | cli/src/packageHash.ts:87-124 | one round of the loop reports the first thing wrong from this entry on, or leaves exactly the rest to be reported |
| `ZipDirectory.WalkEntries` | cli/src/packageHash.ts:87-124 | the loop reports the first thing wrong in the order of the directory, on any bytes |
| `ZipDirectory.ValidateZipEntryPaths` | cli/src/packageHash.ts:82-124 | the whole check, on any bytes: every read in range, the first problem reported |
| `ZipDirectory.VisitReadsBack` | cli/src/packageHash.ts:87-111 | headers laid out as section 4.3.12 of APPNOTE.TXT says are visited name by name, in order, whatever their extra fields and comments |
| `ZipWalk.VisitExactly` | cli/src/packageHash.ts:87-111 | on any bytes: the walk takes exactly the names of headers that stand end to end, and stops only before one that has another signature or runs over the end |
| `ZipDirectory.EndReadsBack` | cli/src/packageHash.ts:133-136 | an end record laid out as section 4.3.16 says gives back its directory offset and count |
| `ZipDirectory.FirstRefusedNone` | cli/src/packageHash.ts:112-121 | nothing is refused if and only if every name normalises and no two kept ones normalise alike |
| `ZipDirectory.DirectoryRoundTrip` | cli/src/packageHash.ts:82-140 | a written archive is accepted if and only if its names are, and the walk visits exactly them |
| `BundleHash.ComputePackageHash` | cli/src/packageHash.ts:11-44 | an error is the directory's first problem and no other, and a result reads back as the counted files in byte order and is the preimage of just the bundles in order that hold the same files |
| `BundleHash.ValidatedNames` | cli/src/packageHash.ts:82-124 | a directory without a problem has names that all normalise, no two kept ones alike |
| `BundleHash.ValidatedIsHashed` | cli/src/packageHash.ts:11-44 | what is unzipped from a bundle whose directory is in order is never refused, and its preimage lists the files in byte order |
| `BundleHash.HashedAlikeExactly` | cli/src/packageHash.ts:11-44 | on any bytes: two bundles whose directories are in order are hashed alike if and only if they hold the same files under the same normalised paths |
| `TarReader.ReadTarString` | cli/src/baseBytecode.ts:201-209 | a field reads as its bytes up to the first NUL, also where the block ends before the field |
| `TarReader.ReadHeader` | cli/src/baseBytecode.ts:178-192 | whether a header, whole or cut short, is a regular file's of the path, and its signed size |
| `TarReader.ExtractTarEntry` | cli/src/baseBytecode.ts:166-199 | on every archive on which the loop ends, and only there is it called: the loop returns what its rounds come to, with JavaScript's negative offsets |
| `TarFormat.TarRoundTrip` | cli/src/baseBytecode.ts:166-226 | for every list of well-formed entries with their prefix splits, padding and trailer: after one round each and one more the loop has ended, and exactly the data of the first regular file of that path, or nothing, has come back |
| `TarReader.NeverTruncated` | cli/src/baseBytecode.ts:184-193 | on any bytes: what is returned is the slice asked for by a regular file's header of that path which the loop reached, and all the data it declares where its size is unsigned and it lies in the archive |
| `TarReader.SignedSlice` | cli/src/baseBytecode.ts:184-193 | a header with a negative size, in the archive or before its start, gives back undeclared bytes if and only if the end it asks for lies before the archive's start, where its data would begin does not, and the size is not as far below zero as the archive is long |
| `TarEnds.RoundMoves` | cli/src/baseBytecode.ts:195 | a round moves on if and only if the size is above -512, stands still if and only if it is from -1023 to -512, and moves back if and only if it is below |
| `TarEnds.UnsignedEnds` | cli/src/baseBytecode.ts:166-199 | on any bytes with no signed size field, or none of -512 or less, the loop ends within a round per block and one |
| `TarEnds.EndsExactly` | cli/src/baseBytecode.ts:166-199 | on any bytes: the loop ends if and only if it has ended after twice as many rounds as blocks and two, and if and only if it never comes back to an offset in them |
| `TarEnds.EndsByTheHeaders` | cli/src/baseBytecode.ts:166-199 | where no header sends it back, the loop ends if and only if every header it goes on from has a size above -512 |
| `TarEnds.NeverEnds` | cli/src/baseBytecode.ts:195 | an archive on which the loop never ends, whatever is looked for |
| `TarEnds.BackToTheEnd` | cli/src/baseBytecode.ts:174-195 | an archive whose loop goes back before its start and takes the empty block there for the end |
| `TarEnds.ReturnsUndeclared` | cli/src/baseBytecode.ts:184-193 | an archive from which two blocks come back that no header declares |
| `RestoreTheorems.FinishRecipeIsSound` | cli/src/flySetup.ts:1300-1341 | from every world a record can stand for, with commands failing half-way: no step lets Patch run on a database that is neither the untouched nor a validated one, no drop goes out under a running `pg_restore`, and a recipe carried through ends with the right database, Patch live on the recorded image and autostop restored |
| `RestoreTheorems.UndoRecipeIsSound` | cli/src/flySetup.ts:1343-1361 | the same for undoing, with the pre-restore database in the snapshot: it ends with the pre-restore database live on a clone |
| `UndoChecks.UndoIsWatched` | cli/src/flySetup.ts:958-1003 | whatever the snapshot holds: an attempt at undoing removes no machine but the recorded one, and that only beside a clone with the rows counted before; brings Patch up only on such a clone alone; adds or removes machines only while Patch is held and no `pg_restore` runs; keeps every volume; and carried through leaves Patch answering on the clone |
| `UndoChecks.SleepIsOwed` | cli/src/flySetup.ts:1281-1361 | the sleep step is there exactly while the autostop is owed; after a completed restore it leaves everything as it should be, and without it everything is |
| `RestoreTheorems.FinishCompletesExactlyWhen` | cli/src/flySetup.ts:1300-1341 | the finish recipe can be carried through if and only if the backup's rows are as its manifest says, or the database was never touched |
| `RestoreTheorems.UndoCompletes` | cli/src/flySetup.ts:1343-1361 | the undo recipe can always be carried through |
| `RestoreTheorems.OneRecipeAlwaysApplies` | cli/src/flySetup.ts:1277-1361 | a touched database can always be put back, a Patch that is down brought back, and finishing is withheld exactly when it is over, not begun, or a mismatch is noted; a mismatch with a number means the backup is not as its manifest says |
| `RestoreTheorems.StandingIsTrue` | cli/src/flySetup.ts:1364-1389 | the line on where a restore stands is true of the database in every world the record can stand for, the number it names included, and offers exactly the recipes there are |
| `RestoreTheorems.WithheldFromAGoodRestore` | cli/src/flySetup.ts:1301-1303 | among noted mismatches, finishing is withheld wrongly if and only if the restored rows are the backup's, and then no count was read |
| `RestoreFlow.RecordAlwaysConsistent` | cli/src/commands/flyBackup.ts:546-670 | wherever the restore stops, whatever failed, it was safe so far and its record stands for the world it leaves |
| `RestoreSmoothly.UndisturbedRestoreCompletes` | cli/src/commands/flyBackup.ts:546-735 | a restore of a good backup that nothing disturbs is completed in at most its twenty-three actions, with Patch answering on the validated database and the autostop the preflight found |
| `RestoreFlow.UnreadableCountStops` | cli/src/commands/flyBackup.ts:624-635 | over a good restore, output without a count stops the restore with a record that no longer offers to finish |
| `RestoreFlow.StopAnywhereThenRecover` | cli/src/commands/flyBackup.ts:546-735 | stop anywhere, an unreadable count included, then follow one of the recipes as far as it goes: safe all the way, and carried through it reaches its goal |
| `RestoreAttempts.AttemptsAreSafeExactlyWhen` | cli/src/flySetup.ts:1277-1361 | any number of attempts at either recipe, each stopped anywhere, are safe if and only if no drop is sent while Patch has machines |
| `RestoreAttempts.HeldAttemptsAreSafe` | cli/src/flySetup.ts:1277-1361 | undoing is safe at any time, finishing after the restore too, and finishing from the top whenever Patch has no machines at the start |
| `RestoreAttempts.FinishingTwice` | cli/src/flySetup.ts:1305-1331 | a finish recipe that drops, followed to its end and again, is not safe |
| `RestoreAttempts.StopAnywhereThenAttempt` | cli/src/commands/flyBackup.ts:546-735 | both of these from wherever a restore stopped |
| `BackupManifest.ParseBackupManifest` | cli/src/flySetup.ts:1072-1132 | the line loop reads the file as specified, errors in their order |
| `BackupManifest.AcceptedIsUsable` | cli/src/flySetup.ts:1086-1115 | every accepted file names its app, image and time, and with database coverage its database app, row count and a 64-digit lower-case checksum |
| `ManifestTheorems.ManifestRoundTrip` | cli/src/flySetup.ts:1048-1132 | a manifest comes back from its printed file if and only if it is usable and each field is one trimmed line (an optional one not empty, the checksum in lower case) |
| `ManifestTheorems.SurvivesExactly` | cli/src/flySetup.ts:1065-1067 | a text survives printing and reading if and only if it is one line with nothing to trim |
| `ManifestTheorems.BreaksAreOneSpace` | cli/src/flySetup.ts:1065-1067 | a run of line breaks is printed as one space, and what stands around it as it is |
| `ManifestTheorems.RereadIsSame` | cli/src/flySetup.ts:1065-1132 | printing what was read from a file with plain line feeds and reading it again changes nothing |
| `ManifestTheorems.OtherLinesIgnored` | cli/src/flySetup.ts:1072-1084 | blank lines, comments and lines that are no pair may stand anywhere |
| `ManifestTheorems.LastLineCounts` | cli/src/flySetup.ts:1072-1084 | of several lines for a key the last one counts |
| `ManifestTheorems.RefusedForAReason` | cli/src/flySetup.ts:1086-1115 | what a refusal says of the file is so |
| `TextLines.LinesRead` | cli/src/flySetup.ts:1065-1074 | lines joined with line feeds are read back as those lines |
| `TextLines.EitherEndingIsRead` | cli/src/flySetup.ts:1072-1074 | and so are lines of which each ends in a line feed with a carriage return before it or without |
| `FlyToml.ParseSavedFlyToml` | cli/src/flySetup.ts:687-744 | the section-tracking loop reads the file as specified |
| `TomlTheorems.SettingReads` | cli/src/flySetup.ts:711-741 | a `key = value` line at any indent is that setting, unless the value holds a line terminator |
| `TomlTheorems.QuotedReads` | cli/src/flySetup.ts:746-755 | a value `toml` accepts reads back as itself |
| `TomlTheorems.InstallReadsBack` | cli/src/flySetup.ts:300-338 | for all values `toml` takes: the shared / 1 CPU / 512 MB machine is read back always, and exactly the written `[env]` if and only if no value holds a line terminator |
| `TomlTheorems.NothingMissing` | cli/src/flySetup.ts:784-796 | for all values `toml` takes: no required key is missing if and only if stem, endpoint, public URL and e-mail address are one-line and not blank |
| `ScalarReading.StringsRead` | cli/src/flySetup.ts:746-756 | basic and literal strings give back every value they can hold, whatever stands behind them |
| `ScalarReading.BareValuesRead` | cli/src/flySetup.ts:757-764 | whole numbers of either sign and switches, with a comment or without |
| `ScalarReading.MemoryReads` | cli/src/flySetup.ts:768-782 | a size in `mb` or `gb`, in any case and with any space before the unit, or in none |
| `ScalarReading.KeysRead` | cli/src/flySetup.ts:711-716 | keys bare or quoted, white space or none around the sign |
| `ScalarReading.EnvTakes` | cli/src/flySetup.ts:722-725 | in `[env]` a text is itself, a switch its name, a number as numbers are shown, and no other key changes |
| `ScalarReading.OtherLinesPassed` | cli/src/flySetup.ts:694-697 | blank lines and comments are passed over, in every section |
| `ScalarReading.SecondMachine` | cli/src/flySetup.ts:701-705 | another `[[vm]]` table after the first changes nothing |
| `FlyInstall.RefusedExactlyWhen` | cli/src/flySetup.ts:55-75 | a company is refused if and only if its slug does not begin with a letter or its stem is too long; the shape check between refuses nothing |
| `FlyInstall.StemIsFixed` | cli/src/flySetup.ts:50-75 | a stem given as the company is that stem again |
| `CompanyNames.StemIsItsWords` | cli/src/flySetup.ts:50-75 | whatever stands around and between its words, a company is its words with dashes and one `patch` at the end, or refused by first letter or length |
| `FlyInstall.EmailIsItsParts` | cli/src/commands/selfhostInstall/wizard.ts:325-327 | an address is accepted exactly as a part, `@`, a part, a dot, a part |
| `FlyInstall.ParseAccessKeyExport` | cli/src/flySetup.ts:211-242 | the loop reads Tigris' output as specified, the last line of a name winning |
| `KeyWriting.AssignmentReads` | cli/src/flySetup.ts:214-228 | an assignment, `export` before it or not, in either quotes, is its name and its value |
| `KeyWriting.PrintedKeyReads` | cli/src/flySetup.ts:211-242 | a key printed under either set of names reads back value by value, and not at all without id or secret |
| `FlyInstall.ExportsAreOneLine` | cli/src/flySetup.ts:214-228 | no value it reads breaks a line |
| `FlyInstall.InstallIsReadBack` | cli/src/commands/flyInstall.ts:1107-1142 | for all answers an install accepts: it writes its `fly.toml` unless the endpoint or the region Tigris printed holds a quote or the region a backslash, and every file it writes is read back exactly, with no required key missing |
| `Flags.KebabInjective` | cli/src/commandParsers.ts:728-730 | keys without a dash never share a public name |
| `FlagWriting.KebabReadsBack` | cli/src/commandParsers.ts:728-730 | the key can be read off its public name: a letter behind a dash was a capital |
| `Flags.FlagSchemaDefinition` | cli/src/commandParsers.ts:732-758 | the map of public names, or an error exactly when two keys share one |
| `Flags.ReadFlag` | cli/src/commandParsers.ts:1005-1088 | a known flag's value and how many words it took, or the error the walk gives |
| `Flags.ParseFlags` | cli/src/commandParsers.ts:959-1095 | the loop parses to the defaults with every occurrence put over them in turn, or gives the first error |
| `FlagWriting.WrittenIsParsed` | cli/src/commandParsers.ts:959-1095 | every command line written from settings, in any form of each flag, parses, and each key has its last setting, a list all of them, any other its default |
| `FlagWriting.ListInOrder` | cli/src/commandParsers.ts:1079-1085 | a list's key holds its texts in the order of the command line |
| `FlagWriting.OnlySpelledOut` | cli/src/commandParsers.ts:992-1095 | an argv is accepted only as known flags end to end, each in one of its forms and of the value its words say |
| `FlagWriting.DefaultsStart` | cli/src/commandParsers.ts:966-990 | exactly the defaults of known keys count, and a switch is on only by `true` |
| `Argv.HasOption` | cli/src/argv.ts:6-8 | true exactly when some word spells the option in either form |
| `Argv.HasBooleanOption` | cli/src/argv.ts:20-26 | true exactly when some word spells it otherwise than `=false` |
| `Argv.ReadOptionValue` | cli/src/argv.ts:35-57 | the backward scan reads what the last spelling says |
| `Argv.WithoutOption` | cli/src/argv.ts:65-90 | the loop keeps exactly the words that are neither a spelling nor its value |
| `Argv.RedactSecretFlags` | cli/src/argv.ts:125-151 | the loop blanks as specified, keeping the number of words |
| `Argv.RemovedIsGone` | cli/src/argv.ts:65-90 | on any argv: after a removal nothing is read for the option, and removing again changes nothing |
| `Argv.RedactAt` | cli/src/argv.ts:125-151 | on any argv, word by word: a token's value is blanked in both forms and no other word changes |
| `ArgvTheorems.ReadOptionValueAgrees` | cli/src/argv.ts:28-57 | on every accepted command line `readOptionValue` is the parsed value of a spelled string option, and nothing for one that is not |
| `ArgvTheorems.ParsedIsRead` | cli/src/argv.ts:28-57 | the same for every flag that is not a list, converted as its kind is |
| `ArgvTheorems.WithoutCommutes` | cli/src/argv.ts:59-90 | on every accepted command line removing an option resets exactly its key to the default and leaves every other key, list order included |
| `ArgvTheorems.RedactKeepsAllButTheToken` | cli/src/argv.ts:119-151 | a redacted command line still parses, and only `token` has changed |
| `ArgvTheorems.HasBooleanOptionAgrees` | cli/src/argv.ts:10-26 | a spelled switch parses to true if and only if it is found and does not end in `=false`; reader and parser disagree exactly when both hold |
| `ArgvTheorems.LastSpellingOff` | cli/src/argv.ts:10-26 | the disagreement, for every boolean flag |
| `Shell.ShellRoundTrip` | cli/src/argv.ts:102-115 | for every list of arguments, the shell's token recognition and quote removal give back exactly those arguments and nothing in the line is live |
| `Shell.RenderInjective` | cli/src/argv.ts:113-115 | two command lines printed alike are the same |
| `Interrupts.InvAlways` | cli/src/progress.ts:124-331 | after any sequence of operations: the exit wrapper is lent exactly while someone listens and a step animates, the SIGINT listener is there exactly while anyone listens, the SIGTERM one exactly while a hook stands, and each Progress has at most one step in flight |
| `Interrupts.InvReachable` | cli/src/progress.ts:179-190 | so it is in every state the module gets into from its start |
| `Interrupts.ExitReachesGenuine` | cli/src/progress.ts:299-320 | through any stack of foreign wrappers, a code that is not zero always reaches the genuine exit, and a zero one is claimed exactly inside the window |
| `Interrupts.ExitRestored` | cli/src/progress.ts:287-331 | with no other owner, closing the window restores the genuine exit |
| `Interrupts.ExitReachable` | cli/src/progress.ts:287-331 | from the start on, with no other owner, `process.exit` is the genuine one whenever the window is closed |
| `Interrupts.PressGoesInnermost` | cli/src/progress.ts:196-246 | a press is the last listed wait's alone; with none, every animating step is settled as cancelled and the leave begins; while one is under way it does nothing |
| `Interrupts.EveryHookOnce` | cli/src/progress.ts:208-246 | whatever else happens and whichever hooks throw, the hooks start one by one, each once, last registered first, and then the process exits 130 or 143 |
| `Interrupts.ReverseAt` | cli/src/progress.ts:228 | the hooks' order is the registration order backwards |
| `InterruptOrder.PressIsTheLastWaits` | cli/src/progress.ts:122-137 | after any calls, a press is the wait's that was registered last and is not disposed of |
| `InterruptOrder.RegisteredThenDisposed` | cli/src/progress.ts:130-137 | a wait that has come and gone leaves the others as they were |
| `InterruptOrder.HooksFromTheLast` | cli/src/progress.ts:222-246 | after any calls, the hooks a press starts are the live ones, the last registered first and then each earlier one in turn |
| `InterruptOrder.EveryStepSettledOnce` | cli/src/progress.ts:420-584 | after anything at all, every written step has been settled exactly once, but the one in flight |
| `InterruptOrder.SettledAs` | cli/src/progress.ts:420-584 | a new step settles the one before as done, an ending as it says, and finishing closes the tree |
| `InterruptManager.Manager.SyncSignalListeners` | cli/src/progress.ts:253-281 | one listener per signal, exactly while wanted |
| `InterruptManager.Manager.SyncCancelIntercept` | cli/src/progress.ts:287-331 | the wrapper is lent and taken back as the state machine says |
| `InterruptManager.Manager.OnInterrupt` | cli/src/progress.ts:124-131 | registering a wait makes the state machine's transition, whose order `InterruptOrder.PressIsTheLastWaits` tells |
| `InterruptManager.Manager.DisposeInterrupt` | cli/src/progress.ts:133-137 | and so does its disposer |
| `InterruptManager.Manager.OnInterruptCleanup` | cli/src/progress.ts:163-170 | registering a hook makes the transition, whose order `InterruptOrder.HooksFromTheLast` tells |
| `InterruptManager.Manager.DisposeCleanup` | cli/src/progress.ts:172-176 | and so does its disposer |
| `InterruptManager.Manager.NotifyInterrupt` | cli/src/progress.ts:196-206 | a press makes the transition |
| `InterruptManager.Manager.LeaveAfterCleanup` | cli/src/progress.ts:208-246 | the settling loop and the first hook make the transition |
| `InterruptManager.Manager.HookEnded` | cli/src/progress.ts:229-245 | the next hook, or the exit in `finally`, makes the transition |
| `InterruptManager.Manager.ProcessExit` | cli/src/progress.ts:304-320 | a call of any value of `process.exit` makes the transition |
| `InterruptManager.Manager.SettleStep` | cli/src/progress.ts:420-584 | settling a step makes the transition, once |
| `InterruptManager.Manager.WriteStep` | cli/src/progress.ts:420-584 | a new step settles the one before and makes the transition |
| `Paging.ListReleaseChoices` | cli/src/flagPrompts.ts:216-301 | the loop ends against every server whose totals stay bounded, and collects what the walk sees |
| `Paging.PickerIsComplete` | cli/src/flagPrompts.ts:227-298 | against any server paging one fixed list with any positive limits, every label is collected once and in order, as title and value, with its own hint; the error comes exactly when rows have no label at all |
| `Paging.ParseReleasePage` | cli-capacitor/src/resolveNames.ts:269-307 | a page is accepted exactly when its pagination and every row are readable |
| `Paging.ResolveReleaseId` | cli-capacitor/src/resolveNames.ts:115-173 | the loop ends against every server whose totals stay bounded, with the answer specified |
| `Paging.ResolverExactly` | cli-capacitor/src/resolveNames.ts:115-173 | against any paging of a fixed list: the id of the first release of that label, not found exactly when there is none, and ambiguous exactly when the label comes again on that page |
| `Paging.RepeatAcrossPages` | cli-capacitor/src/resolveNames.ts:136-157 | a label given twice is refused on one page and resolved to its first release on two |
| `Paging.ResolverFindsUnique` | cli-capacitor/src/resolveNames.ts:115-173 | with unique labels an id comes back if and only if the label occurs, and it is that release's |
| `InteractiveFlags.ParseWithInteractiveFlags` | cli/src/interactiveFlags.ts:107-165 | the loop comes to the outcome specified, for any parser and any answers |
| `InteractiveFlags.PromptLoopIsProper` | cli/src/interactiveFlags.ts:107-165 | at most sixteen rounds, no flag twice, none spelled in argv, none outside the policy, and the result is the parse of the defaults overlaid with the answers |
| `InteractiveFlags.StopsOnlyWhenNothingIsLeft` | cli/src/interactiveFlags.ts:120-135 | the loop stops by itself only when each flag still missing was asked for, was spelled or may not be asked for |
| `ResourceWalk.AskedExactlyWhen` | cli/src/interactiveFlags.ts:334-460 | whom the walk asks about: team, app and deployment each exactly when it is needed, no id says where to look, and neither the configured name nor a sole entry settles it, a spelled name included |
| `ResourceWalk.WalkAgain` | cli/src/interactiveFlags.ts:334-460 | with the answers it recorded, any later walk, whatever it is for, goes through the same team, app and deployment as far as both reach and asks about none of them, a sole app that was only confirmed on the way excepted; one that wants no more asks nothing |
| `ResourceWalk.PicksArriveExactlyWhen` | cli/src/interactiveFlags.ts:126-155 | in whichever round: a picked team or app reaches the next parse if and only if its name was not spelled, or a listed one answers to what was; a deployment always does |
| `ResourceWalk.SpelledPickIsLost` | cli/src/interactiveFlags.ts:698-725 | with `--app shp` over apps `shop` and `web` the walk asks for the app and records it, and the next parse sees `shp` |
| `NamedResources.PickSurvives` | cli/src/interactiveFlags.ts:698-760 | the next parse sees one picked resource if and only if its name was not spelled, or was spelled so that a listed resource answers to it |
| `NamedResources.PickedAgain` | cli/src/interactiveFlags.ts:707-760 | with what is known after a pick, the next walk picks the same resource and does not ask, whatever would be answered |
| `NamedResources.PickIsWhose` | cli/src/interactiveFlags.ts:730-760 | the pick is the first resource that answers to the configured name, else the only one where that may be taken, else the one selected; none exactly when there is none such |
| `NamedResources.RecordedOnlyWhenNeeded` | cli/src/interactiveFlags.ts:707-722 | a pick is recorded when its flag was wanted, else only where the configured name does not stand for it already and there was something to name |
| `NamedResources.MatchExactly` | cli-capacitor/src/resolveNames.ts:309-340 | a name finds a resource if and only if it stands for exactly one, exactly first and in any case second; none if and only if no name is alike |

## Left out

- The sockets, files, clock, terminal and child processes themselves: they are steps, parameters or adversarial choices.
- SHA-256, RSA signing, unzip, UTF-8 decoding, Unicode case folding, URL and JSON parsing, dates and number printing: functions of the model are parametric in them or work on their results; `toLowerCase` on header names and checksums is ASCII.
- Lone surrogates: strings are sequences of Unicode scalar values, so `JSON.stringify`'s escaping of halves of a pair and `Buffer.from`'s replacement of them do not arise.
- Numbers: integers are exact, so rounding of integers above 2^53 and their printing from 10^21 on are not shown; the parser's refusal of integers that round to infinity is.
- CredentialSafety.MutualExclusion: says nothing once a lock has gone stale; breaking a lock is a check and a removal with time between them, which the protocol has as two steps.
- CredentialTheorems.OneRefreshPerGeneration: holds for executions in which each refresh fails before the server acts or has its reply saved, no run reaches the wait deadline, and nobody signs in or out meanwhile.
- CredentialLock.Files.AcquireLock: each pass of the loop takes at least a millisecond; errors other than an existing lock file end the run and are not modelled.
- Access tokens given by flag or environment take no part in the protocol; `Http.AuthenticatedRequest` has them.
- Http.Server.Fetch: requests without a key are passed through without an account of what they execute, since they are never retried by the loop.
- Duplicate idempotency headers of different spelling: the key is the set of their values.
- BundleHash.ComputePackageHash: unzipping gives the files the directory names, each name once; SHA-256 of the preimage is left out.
- RestoreAttempts.AttemptsAreSafeExactlyWhen: nobody but the reader of the recipes changes Patch or its machines between attempts.
- A `drop database` that goes on running on the server after its connection was cut, and a dump that has to be uploaded to the machine again.
- The commands of a recipe and their texts are a datatype; quoting inside them is left to `Shell`.
- FlyInstall.InstallIsReadBack: `new URL(endpoint).origin` is a parameter that gives printable ASCII without a backslash, as the serialising of an origin in the URL Standard does; `toLowerCase` is any function.
- FlyToml.ParseSavedFlyToml: how a bare number in `[env]` prints is a parameter; keys such as `__proto__`, which a JavaScript record treats specially, are ordinary keys.
- ZipDirectory.DirectoryRoundTrip: an archive comment may be there as long as no end signature can be read in it; disagreement between local names and directory names is not modelled.
- Flags.FlagSchemaDefinition: the cache of definitions, and schema keys inherited from `Object.prototype`.
- Interrupts.InvAlways: handlers and hooks that register or dispose while they run do so as operations of their own, before or after the press.
- InterruptManager.Manager.SettleStep: what a step draws; only whether it animates and how it ends.
- Paging.ListReleaseChoices: limits, offsets and totals are integers; a server whose totals grow without bound is excluded, as the loop then need not end.
- InteractiveFlags.PromptLoopIsProper: speaks of the flags a round is for; whom the walk behind it asks about is `ResourceWalk.AskedExactlyWhen`, and a team or app it records is part of the answers.
- ResourceWalk.PicksArriveExactlyWhen: the server lists the same in every round, no two teams answering to one name.
- ResourceWalk.AskedExactlyWhen: up to the deployment; the label question at its end lists the releases as `Paging` does.
- Shell.ShellRoundTrip: words and quotes only; a first word such as `A=b`, which a shell takes for an assignment after recognising it, is printed bare.
- What the questions look like, and the lists behind them beyond `Paging` and `NamedResources`.
- The command parsers above `ParseFlags`, help, tables, wording, the Capacitor copies of shared files, login, and release commands: branches without state of their own.
