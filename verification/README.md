# Pasture in Dafny

This project models the parts of Pasture where correctness hangs on more than one function,
and proves what they promise for every input, every run and every interleaving.

**Schema migration** (`Migration.dfy`, `MigrationProgress.dfy`, `Migrator.dfy`). Any number of processes read the
schema version, queue for the write lock, read it again, apply one step and commit; each may
crash or be cancelled anywhere. `Migration` is the step relation over all of them, with the
store as a version and opaque data; `MigrationProgress` shows that it is never stuck; `Migrator` has the loops as methods of a database that
other migrators use at the same time.

**One hook invocation** (`Settlement.dfy`, `HookInvocation.dfy`, `FaultLog.dfy`). The commit
fence is a class that keeps the history of its sections; the race of command, worker, deadline, panic and
write lane is a step relation over it, with the journal rows as ghost state. The fault log is
an inode-level protocol of short-lived processes.

**Store snapshots** (`Encoding.dfy`, `Snapshot.dfy`, `TableReader.dfy`, `TableDigest.dfy`,
`RowChanges.dfy`). Canonical cells, rows and fields, the byte budget that is charged before
anything is encoded, what the digests tell apart, and exact row differences.

**Version order and upgrade** (`SemVer.dfy`, `UpgradeVersion.dfy`, `UpgradeRecovery.dfy`).
Two independent comparators against section 11 of Semantic Versioning 2.0.0 and against each
other, and the upgrade and repair flow as a recovery protocol over the files on disk.

**Manifests, bundles, aggregates** (`Paths.dfy`, `Manifest.dfy`, `ManifestCodec.dfy`,
`BundleIdentity.dfy`, `Bundle.dfy`, `Aggregate.dfy`, `AggregateVerify.dfy`). Acceptance
conditions, codecs, the identity stream, bundle construction from any enumeration of a source
tree, and the closed three-by-three release in 64-bit arithmetic.

**Mutation testing** (`Corpus.dfy`, `Mutation.dfy`, `Expansion.dfy`, `Evaluation.dfy`).
Corpus validation, the in-place edits on a cloned case, expansion into mutants, and the
evaluator that checks an expansion and its observations.

`Wrappers`, `Orders`, `Sequences`, `Numerals` and `Text` hold the shared vocabulary: three-way
comparators and the sort they drive, sequences as multisets, digits, string splitting and
white space. Strings stand for their bytes; where the code reads runes (white space, canonical
paths), the model reads their UTF-8 text. Several predicates are hidden with `hide` inside a proof that
treats them as names.

A result of the form "accepts exactly" is a method whose postcondition is an if-and-only-if.
For the codecs the reference is a *spelling* relation: a value spells a manifest when its
members are that manifest's members in some order. Parsing accepts exactly the spellings, a
value spells at most one manifest, and encoding writes a spelling; round trips and canonical
re-encoding follow.

## Where the code and its promises differ

- The migrator's "gap" error is reachable after all, exactly when the recorded version is
  below 1 (`Migration.GapReachableIff`).
- The fault log's comment says that of two processes which both decide to rotate, one rename
  fails because the file is gone. That holds exactly as long as nobody has opened the path
  since (`FaultLog.RotationOutcome`); otherwise, even when only the winner itself has, the
  second rename moves the new file and drops the backup made a moment before
  (`FaultLog.LateRotationDropsFreshBackup`).
- A published commit is returned whatever the deadline does, but not when the command itself
  panics while a publishing append is in flight. That is the exact condition
  (`HookInvocation.PanicIsFaithfulIff`), and such states are reached
  (`HookInvocation.AppendInFlight`).
- The table digest's input does not separate column names from rows. Between tables the reader
  makes, the only collisions are those of a table with rows and the one without rows that
  spells them as column names (`TableDigest.CollisionsAreUnrowed`, `TableDigest.CollidesIff`).
- The store digest inherits this for a table named by its own last row's value: exactly such a
  table, where the spelled-out columns are admitted, makes two stores hash alike
  (`TableDigest.SameNameCollidesIff`, `TableDigest.StoreCollides`, `TableDigest.StoreIsExact`).
- A row token names one key exactly when the key has no colon (`RowChanges.TokenNamesKeyIff`);
  the identities the snapshot reader makes have none (`RowChanges.IdentityIsPlain`), so among
  them tokens are distinct (`RowChanges.TokenInjective`).
- The upgrade comparator reads a numeric identifier of 2^63 or more as text. It agrees with
  the release order exactly on versions without one (`UpgradeVersion.AgreementIsFitting`,
  `UpgradeVersion.OversizedIsValid`).
- When `pastured` is a symbolic link to `pasture`, both are planned for one path, the repair
  never brings it to rest (`UpgradeRecovery.PairConverges`, `UpgradeRecovery.NeverAtRest`), and
  every later run puts the other binary there (`UpgradeRecovery.LinkedPairAlternates`).
- A version whose prerelease contains "pasture-stable" can be valid
  (`Aggregate.MovingVersionIsValid`), but exactly those versions cannot be released
  (`Aggregate.ReleasableIff`).
- Some reports cannot be reached: "canonical size mismatch" (`Snapshot.CellSizeIsLength`), the
  duplicate-asset rule of an aggregate (`Aggregate.AssetNameInjective`), "generated zero mutants"
  of an expansion (`Expansion.NoMutants`), the last operator-set comparison of the evaluator
  (`Evaluation.SameOperators`), and a bundle's missing private snapshot (`Bundle.OpenServes`).

## Model

| member | source | states |
|---|---|---|
| Migration.ActKeepsInv | internal/audit/migrate.go:233-397 | any one action of any process — probe, wait, re-read under the lock, apply, commit, crash or cancellation at any point — keeps the store equal to the fold of exactly the committed steps over the original store, and never lowers the version |
| Migration.RunKeepsInv | internal/audit/migrate.go:189-397 | the same for every interleaving of any number of migrators with any ceilings |
| Migration.VersionNeverDecreases | internal/audit/migrate.go:312-397 | along any run the recorded version is monotone and the commit history only grows |
| Migration.EachStepCommittedOnce | internal/audit/migrate.go:233-275 | step k has been committed if and only if the version has passed it, and no step is committed twice |
| Migration.GapReachableIff | internal/audit/migrate.go:233-260 | with a contiguous table some schedule ends a migrator with the "gap" error if and only if the database started below version 1 |
| Migration.NoUnreachableReport | internal/audit/migrate.go:329-358 | from version 1 up neither "gap" nor "changed underneath us" can end any process in any run |
| Migration.SecondRunIsNoOp | internal/audit/migrate.go:208-232 | after a nil return, a later migrator with the same or a lower ceiling returns nil from its first read and writes nothing, whatever ran in between |
| Migration.ReplayIsClimb | internal/audit/migrate.go:312-397 | any history the concurrent protocol can produce is the climb of a single migrator |
| Migration.ClimbSplits | internal/audit/migrate.go:634-675 | a climb may be stopped at any version and resumed without changing its result |
| Migration.DeferredCeilingSplit | internal/audit/migrate.go:634-675 | concurrent catch-up to any version followed by the remaining steps with one instant gives exactly the store of one uninterrupted migration that stamps those instants |
| MigrationProgress.AloneSucceeds | internal/audit/migrate.go:189-397 | from every reachable state with a free lock and a known version, whatever ran or crashed before, a migrator left alone is blocked nowhere, takes at most six actions a step and two more, and where it stops it has succeeded at its ceiling (or above, where the store stood) with the climb from the store it found |
| MigrationProgress.AloneEnds | internal/audit/migrate.go:189-397 | and some run of its actions does end in success |
| Migrator.BeginImmediateWithRetry | internal/audit/migrate.go:413-504 | the retry loop ends; its pauses follow the doubling backoff, together fit in the ceiling, and contention is reported only after the whole ceiling has passed |
| Migrator.AuditDatabase.RunStep | internal/audit/migrate.go:312-397 | one locked step amid other migrators: the store stays a fold of the table, a nil return means the step is in, a refusal is never "changed underneath us" |
| Migrator.AuditDatabase.MigrateToCeiling | internal/audit/migrate.go:189-275 | nil implies the version has reached the normalised ceiling; a newer store is refused as newer unless the context was cancelled or the version unreadable, and nothing else is refused that way; a database at or above its ceiling is not written |
| Migrator.Transaction.ApplyCeiling | internal/audit/migrate.go:634-675 | inside the caller's transaction the remaining steps are applied with one instant; "gap" is reported if and only if the given version is below 1 |
| Migrator.ConvertInTransaction | internal/audit/migrate.go:634-675 | a failure inside the transaction leaves the store where the catch-up put it; success is the full climb |
| Settlement.AtMostOneAppend | internal/lifecycle/receipt/settlement.go:50-119 | over any sequence of admission, closing and expiry sections at most one append is admitted, none on a fence already entered or abandoned, and it commits at most once |
| Settlement.NoneAfterExpiry | internal/lifecycle/receipt/settlement.go:102-113 | no append is admitted after expiry, and what can be read later is what was published before or what the append then in flight commits |
| Settlement.SettledForGood | internal/lifecycle/receipt/settlement.go:50-119 | a settled fence is never changed again |
| Settlement.PublishedIffCommitted | internal/lifecycle/receipt/settlement.go:80-119 | an outcome can be read if and only if an admitted append has committed |
| Settlement.CommitSettlement.Enter | internal/lifecycle/receipt/settlement.go:50-80 | an append is admitted only if none was admitted in the whole history of the fence, and the fence stays what its sections make it |
| HookInvocation.FirstMatchWins | cmd/pasture/hook_lifecycle.go:640-692 | in any stage table the first row whose error is wrapped decides, and without one the stage is "unknown" |
| HookInvocation.ErrorStages | cmd/pasture/hook_lifecycle.go:640-692 | for every combination of wrapped sentinels: "recorded" exactly when one of the two committed errors is among them, "not recorded" exactly when the pre-write error is and neither of those, otherwise "unknown" |
| HookInvocation.RunKeepsInv | cmd/pasture/hook_lifecycle.go:228-525 | the invariant that ties worker phase, fence, daemon, answer and journal rows holds in every interleaving of worker, deadline, panic and lane |
| HookInvocation.AnswerStands | cmd/pasture/hook_lifecycle.go:420-525 | once the command has answered, nothing in the rest of the run changes the answer |
| HookInvocation.StageIsSound | cmd/pasture/hook_lifecycle.go:228-525 | "not recorded" implies that this invocation has no journal row then or after any continuation; "recorded", and any answer that is no fault, implies a row exists already |
| HookInvocation.OneWriter | cmd/pasture/hook_lifecycle_lane.go:103-155 | a lane request and a direct append never both commit, and a request that was sent keeps the direct path out of the fence for good |
| HookInvocation.PublishedIsReturned | cmd/pasture/hook_lifecycle.go:284-302 | in every run the published outcome is the returned one if and only if one was published and the command did not panic while the publishing append was in flight |
| HookInvocation.PanicIsFaithfulIff | cmd/pasture/hook_lifecycle.go:284-302 | after a panic of the command every continuation returns what it publishes if and only if no publishing append was admitted and unsettled at the panic |
| HookInvocation.PanicCanMissPublication | cmd/pasture/hook_lifecycle.go:284-302 | from every state with such an append the panic answers "record unknown" and some continuation publishes afterwards |
| HookInvocation.AppendInFlight | cmd/pasture/hook_lifecycle.go:420-525 | such a state is reached: the direct path is taken and its publishing append admitted while the command waits |
| HookInvocation.ExpiryWaitsForTheAppend | cmd/pasture/hook_lifecycle.go:480-500 | after expiry the command waits for nothing but an append admitted before, and whatever step ends that append settles the fence |
| HookInvocation.CanAlwaysAnswer | cmd/pasture/hook_lifecycle.go:228-525 | from every reachable state without an answer at most four steps, none of them a panic, lead to one |
| HookInvocation.ObserverFiresOnce | cmd/pasture/hook_lifecycle.go:420-525 | the completion observer fires at most once, and exactly once when command and worker are through |
| FaultLog.ActKeepsRetention | cmd/pasture/hook_lifecycle.go:1078-1205 | every stat, rename, open, append or exit keeps each written line in its file and each file aged by the renames since it was opened |
| FaultLog.LineRetention | cmd/pasture/hook_lifecycle.go:1078-1134 | in every run a line is in the live file or the backup if and only if fewer than two renames happened since its descriptor was opened |
| FaultLog.ActKeepsBound | cmd/pasture/hook_lifecycle.go:1188-1205 | every action keeps each file within the bound that counts the processes that may still write to it |
| FaultLog.SizeBound | cmd/pasture/hook_lifecycle.go:1188-1205 | with n processes every file stays below max + (n + failed stats and renames) times the longest line |
| FaultLog.RotationOutcome | cmd/pasture/hook_lifecycle.go:1176-1205 | in every reachable state: a rotating process moves the file its stat measured if and only if no rename came in between; otherwise its rename fails if and only if nobody opened the path since the last rename, and else it moves that newer file and drops the backup made last |
| FaultLog.MovedOnce | cmd/pasture/hook_lifecycle.go:1154-1205 | in every run a file that was live is live again if and only if no rename has happened since: it is moved by at most one rename |
| FaultLog.LateRotationDropsFreshBackup | cmd/pasture/hook_lifecycle.go:1176-1205 | the unsafe case is reached: two slots that measured one file both rename, and the second drops the backup the first has just made |
| Encoding.HexInjective | internal/acceptance/snapshot.go:340-346 | hexadecimal text determines its bytes |
| Encoding.FrameIsPrefixCode | internal/acceptance/snapshot.go:377-386 | a length-prefixed field at the front of a stream can be read off in only one way |
| Encoding.EncodeFieldsInjective | internal/acceptance/snapshot.go:377-386 | encodeFields is uniquely decodable on field lists of any length |
| Snapshot.CellSizeIsLength | internal/acceptance/snapshot.go:352-375 | the size reserved for a cell is the length of its encoding, so the size-mismatch report is unreachable |
| Snapshot.CellInjective | internal/acceptance/snapshot.go:324-350 | cells of any two types encode distinctly, float against boolean included |
| Snapshot.RowValueInjective | internal/acceptance/snapshot.go:256-281 | two rows of a table have equal Value if and only if all their cells are equal |
| Snapshot.RowIdentityInjective | internal/acceptance/snapshot.go:264-281 | in a table with a primary key two rows have equal Identity if and only if their key cells are equal |
| Snapshot.RowBytesIsExact | internal/acceptance/snapshot.go:234-281 | what is reserved for a row is exactly the length of its Identity and Value, for every key layout |
| TableReader.ByteBudget.Reserve | internal/acceptance/snapshot.go:189-195 | a reservation succeeds exactly when it fits, and the budget is never overdrawn |
| TableReader.MeasureRow | internal/acceptance/snapshot.go:230-256 | the sizing loop refuses exactly rows with an oversized cell and otherwise returns the exact row size |
| TableReader.EncodeRow | internal/acceptance/snapshot.go:256-283 | the encoding loops build the canonical row, with key cells in key order |
| TableReader.SnapshotTable | internal/acceptance/snapshot.go:197-320 | a table is captured if and only if it is within every bound and its identities are distinct; rows then come out strictly ordered and the budget is charged exactly what is kept |
| TableReader.SnapshotStore | internal/acceptance/snapshot.go:86-187 | succeeds exactly when every bound is valid and positive and the store is within all of them, the number of tables included; the budget then equals the bytes retained, never above its maximum |
| TableReader.CapturedBytes | internal/acceptance/snapshot.go:197-301 | what a captured table retains was reckoned beforehand, byte for byte, sorting included |
| TableReader.SelectOrderIrrelevant | internal/acceptance/snapshot.go:283-295 | a snapshot does not depend on the order in which the database returns rows |
| TableDigest.DigestInputInjective | internal/acceptance/snapshot.go:388-395 | tables with equally many columns hash the same input if and only if they are equal |
| TableDigest.SameInputIsSameFields | internal/acceptance/snapshot.go:388-395 | the digest input determines the flat list of columns, name and row fields and no more; columns plus twice the rows agree |
| TableDigest.SharesInputIff | internal/acceptance/snapshot.go:388-395 | a table with columns shares its input with another table value if and only if it has a row or at least three columns |
| TableDigest.CollisionsAreUnrowed | internal/acceptance/snapshot.go:197-310 | two tables the reader makes hash the same input if and only if they are equal or one of them has no rows and spells the other one's rows as column names |
| TableDigest.CollidesIff | internal/acceptance/snapshot.go:197-310 | a captured table with rows shares its input with another captured table if and only if the database admits the schema that spells its rows out |
| TableDigest.StoreInputExact | internal/acceptance/snapshot.go:397-405 | two lists of distinctly named digests give the same store input if and only if they are the same set: the listing order does not show |
| TableDigest.SameNameCollidesIff | internal/acceptance/snapshot.go:388-405 | a captured table with rows shares name and digest input with another captured table if and only if it is named by its own last row and the database admits the spelled-out columns |
| TableDigest.StoreIsExact | internal/acceptance/snapshot.go:388-405 | under a collision-free digest two stores without such tables hash the same input if and only if they hold the same tables |
| TableDigest.StoreCollides | internal/acceptance/snapshot.go:388-405 | for every such table there is another store that hashes the same input, whatever the digest function |
| TableDigest.OneRowIsMade | internal/acceptance/snapshot.go:197-310 | captured tables with rows exist under every name, and the one named by its own row is such a table |
| RowChanges.CompareTableStructure | internal/acceptance/snapshot.go:547-589 | accepts exactly snapshots with the same uniquely named tables and the same columns, none of them nil |
| RowChanges.CapturedIsComparable | internal/acceptance/snapshot.go:547-589 | whatever the reader captures under distinct names passes the structure checks, and its row map loses no row |
| RowChanges.CollectRows | internal/acceptance/snapshot.go:493-503 | the nested loops build the row map |
| RowChanges.RowMapCount | internal/acceptance/snapshot.go:493-503 | no row of a well-formed snapshot is lost in the row map |
| RowChanges.CompareRowChanges | internal/acceptance/snapshot.go:487-520 | succeeds exactly on comparable snapshots and reports each difference once, in order, and nothing else |
| RowChanges.PatchRebuilds | internal/acceptance/snapshot.go:487-520 | applying the reported changes to the old rows rebuilds the new rows |
| RowChanges.EachKeyOnce | internal/acceptance/snapshot.go:487-520 | a key is reported if and only if looking it up gives a different answer, and never twice |
| RowChanges.RowsConserved | internal/acceptance/snapshot.go:504-518 | additions less removals equals the change in the number of rows |
| RowChanges.AssertExactRowChanges | internal/acceptance/snapshot.go:524-545 | accepts if and only if the allowed list is well-formed, duplicate-free and equal as a set to the difference |
| RowChanges.Delta | internal/acceptance/snapshot.go:601-640 | succeeds exactly on comparable snapshots of one kind, and lists exactly the added, changed and removed keys in byte order beside the newer totals |
| RowChanges.ListsOnce | internal/acceptance/snapshot.go:614-640 | the listing is determined by the keys: map order does not show, and it has one token per key |
| RowChanges.TokenInjective | internal/acceptance/snapshot.go:617-618 | tokens of colon-free identities name their keys |
| RowChanges.IdentityIsPlain | internal/acceptance/snapshot.go:268-283 | every identity the snapshot reader makes is free of colons |
| RowChanges.DeltaIsFaithful | internal/acceptance/snapshot.go:601-640 | with colon-free identities a token is listed if and only if its key changed that way |
| RowChanges.TokenNamesKeyIff | internal/acceptance/snapshot.go:617-618 | a token names its key alone if and only if neither the table name nor the identity has a colon |
| Numerals.LengthOrderIsNumeric | artifact/aggregate_types.go:275-298 | on numerals without leading zeros, length and then text is numeric order |
| SemVer.ValidPrerelease | artifact/aggregate_types.go:227-246 | the field and character loops decide exactly the prerelease grammar |
| SemVer.ParseVersion | artifact/aggregate_types.go:204-225 | the parsing loop computes the specified result |
| SemVer.ParsedIsCanonical | artifact/aggregate_types.go:204-225 | every accepted string is the canonical spelling of its numbers and prerelease |
| SemVer.CanonicalIsParsed | artifact/aggregate_types.go:204-225 | every canonical spelling is accepted and gives those numbers back |
| SemVer.Compare | artifact/aggregate_types.go:253-298 | comparing the raw strings by length and text gives the precedence of section 11 of Semantic Versioning 2.0.0 |
| SemVer.CompareFields | artifact/aggregate_types.go:270-298 | the field loop on two different prereleases decides their precedence |
| SemVer.LexicographicIsFieldwise | artifact/aggregate_types.go:253-298 | the recursive precedence is the standard's: the first differing field decides, and a prefix comes first |
| SemVer.VersionsAreTotallyOrdered | artifact/aggregate_types.go:253-298 | Compare is antisymmetric, transitive and zero exactly when the version strings are equal |
| UpgradeVersion.UpgradeIsPreorder | cmd/pasture/cmd_upgrade.go:1169-1233 | the upgrade comparator is a total preorder on everything it accepts, oversized identifiers included |
| UpgradeVersion.UpgradeAcceptsReleases | cmd/pasture/cmd_upgrade.go:1103-1167 | a release version is accepted, with or without "v" and with the same parts, if and only if its three numbers fit in an int |
| UpgradeVersion.OrdersAgree | cmd/pasture/cmd_upgrade.go:1091-1233 | on versions whose numbers fit in an int the two comparators have the same sign |
| UpgradeVersion.AgreementIsFitting | cmd/pasture/cmd_upgrade.go:1204-1233 | a version agrees with every fitting version under both comparators if and only if it fits itself |
| UpgradeVersion.OversizedIsValid | artifact/aggregate_types.go:204-246 | ParseVersion accepts any number from 2^63 on as a prerelease, so versions that do not fit exist |
| UpgradeRecovery.AssemblePlan | cmd/pasture/cmd_upgrade.go:696-725 | a plan exists exactly on a supported platform whose release has the checksums and every planned asset |
| UpgradeRecovery.Preflight | cmd/pasture/cmd_upgrade.go:556-580 | only an all-raw layout may proceed; advice is given exactly when one manager owns everything |
| UpgradeRecovery.DownloadAndVerify | cmd/pasture/cmd_upgrade.go:787-807 | succeeds exactly when every asset has a published checksum that its bytes match |
| UpgradeRecovery.Replace | cmd/pasture/cmd_upgrade.go:916-930 | replaces an exact prefix of the plan, and a failure names the failed binary and exactly that prefix |
| UpgradeRecovery.FindDiffering | cmd/pasture/cmd_upgrade.go:825-839 | the comparison loop finds exactly the destinations whose bytes differ, and stops on a missing checksum or an unreadable file |
| UpgradeRecovery.Repair | cmd/pasture/cmd_upgrade.go:812-860 | changes nothing unless it got to replacing; undisturbed, it reports "already there" exactly when everything matches and otherwise repairs exactly the differing destinations |
| UpgradeRecovery.RunUpgrade | cmd/pasture/cmd_upgrade.go:365-461 | a run writes only when layout, version, confirmation and order permit; otherwise no file changes; every change is a vouched replacement; undisturbed same-tag runs repair |
| UpgradeRecovery.HistoryKeeps | cmd/pasture/cmd_upgrade.go:787-930 | over any sequence of runs that complete, fail or are cut short, no file disappears and every byte string put in place has the published checksum of an asset planned for that path |
| UpgradeRecovery.RepairConverges | cmd/pasture/cmd_upgrade.go:812-860 | an undisturbed repair makes every destination match if and only if no path is asked to hold two different assets |
| UpgradeRecovery.Recovers | cmd/pasture/cmd_upgrade.go:812-860 | after any history one undisturbed same-tag run brings every destination to its published bytes under that condition, and another run would write nothing |
| UpgradeRecovery.PairConverges | cmd/pasture/cmd_upgrade.go:467-480 | for the planned pair the condition fails exactly when pastured resolves to pasture itself and the two assets differ |
| UpgradeRecovery.NeverAtRest | cmd/pasture/cmd_upgrade.go:812-860 | a plan that asks one path for two different assets never matches, whatever the files are |
| UpgradeRecovery.LinkedPairAlternates | cmd/pasture/cmd_upgrade.go:812-860 | a pastured that links to pasture is replaced by every undisturbed same-tag run, by the two binaries in turn |
| Paths.CleanPrefix | artifact/value.go:73-90 | the text before any slash of a canonical path is again a clean path, and not "." |
| Paths.DirStep | artifact/manifest.go:168-170 | one step of the parent walk goes to the next proper ancestor, skips none and gets shorter |
| Manifest.ParentIsFile | artifact/manifest.go:168-180 | the parent walk ends and finds a file if and only if some regular file is a proper ancestor |
| Manifest.IndexByPath | artifact/manifest.go:154-166 | the ownership loop fails exactly on a repeated path and otherwise indexes every entry |
| Manifest.NewManifest | artifact/manifest.go:138-182 | accepts exactly constructed entries with distinct paths and no file above another entry, returns them in path order, and otherwise names the first broken rule |
| Manifest.OrderIndependent | artifact/manifest.go:138-182 | every permutation of the entries gives the same manifest, or is refused alike |
| Manifest.Rebuilt | artifact/manifest.go:138-182 | rebuilding a manifest from its own entries gives it back |
| ManifestCodec.ModeParses | artifact/value.go:141-168 | parsing the rendered mode gives the permission bits back |
| ManifestCodec.ModeRenders | artifact/value.go:149-168 | a parsed mode renders as the text it came from |
| ManifestCodec.EntryRoundTrip | artifact/manifest.go:225-236 | decoding is the exact inverse of encoding an entry, on both sides |
| ManifestCodec.DecodeEntryObject | artifact/manifest.go:389-448 | accepts exactly objects with known keys, no key twice, text values and nothing required missing, and decodes the entry whose members they are |
| ManifestCodec.DecodeManifest | artifact/manifest.go:309-369 | accepts exactly objects with one schema text and one array of entries |
| ManifestCodec.WireIsUnique | artifact/manifest.go:309-448 | decoding is unambiguous: an object spells at most one wire value |
| ManifestCodec.MarshalJson | artifact/manifest.go:216-239 | the encoding loop produces the canonical value |
| ManifestCodec.ParseManifest | artifact/manifest.go:245-307 | accepts exactly the spellings of valid manifests, in any field or entry order, and returns the manifest they spell |
| ManifestCodec.SpellsOne | artifact/manifest.go:245-307 | a value spells at most one manifest |
| ManifestCodec.RoundTrip | artifact/manifest.go:216-307 | parsing a marshalled manifest returns it |
| ManifestCodec.ReencodeTwo | artifact/manifest.go:216-307 | values with the same wire entries in any order are re-encoded alike |
| BundleIdentity.DeriveBundleId | artifact/bundle.go:303-332 | the writes to the running hash add up to the specified stream |
| BundleIdentity.EntryIsPrefixCode | artifact/bundle.go:307-312 | an entry at the front of the stream can be read off in only one way |
| BundleIdentity.EntriesStreamInjective | artifact/bundle.go:303-314 | equally many entries are determined by their stream |
| BundleIdentity.IdStreamInjective | artifact/bundle.go:303-314 | two manifests hash the same stream if and only if they are equal |
| Bundle.Walk | artifact/bundle.go:60-125 | over any enumeration the callback's counts, observations and failures are exactly those of its events |
| Bundle.CheckPaths | artifact/bundle.go:139-204 | the loop over observed paths reports and captures exactly the paths seen once |
| Bundle.HasPathOrDescendant | artifact/manifest.go:578-585 | true exactly for declared paths and the directories above them |
| Bundle.FirstSourceFailure | artifact/bundle.go:247-261 | returns a failure that comes first by entry, rank and text |
| Bundle.NewBundle | artifact/bundle.go:31-220 | succeeds exactly when nothing is wrong with the source, and otherwise reports a first failure; the bundle holds exactly the declared files with verified bytes |
| Bundle.SuccessIsFaithful | artifact/bundle.go:31-220 | nothing is wrong if and only if the source is the manifest's tree: each path clean and seen once, nothing beyond declared entries and their parents, every declared entry delivered with its digest |
| Bundle.FailuresPermuted | artifact/bundle.go:60-220 | the set of failures does not depend on the order of the walk |
| Bundle.SameError | artifact/bundle.go:247-261 | two enumerations of one tree report the same entry, rank and text |
| Bundle.OpenServes | artifact/bundle.go:346-393 | a bundle opens exactly its declared regular files, with bytes of the declared digest; a missing snapshot cannot occur |
| Aggregate.IdTextInjective | artifact/aggregate_types.go:182-187 | different coordinates are spelled differently |
| Aggregate.NineAreAll | artifact/aggregate_types.go:364-372 | nine distinct coordinates are the whole matrix |
| Aggregate.AssetNameInjective | artifact/aggregate_manifest.go:212-222 | within a version an asset name names its component, so the duplicate-asset check adds no refusal |
| Aggregate.ReadComponents | artifact/aggregate_manifest.go:194-253 | the component loop accepts exactly spellings of nine valid components with distinct coordinates |
| Aggregate.ParseAggregate | artifact/aggregate_manifest.go:148-255 | accepts exactly the spellings of valid releases, in any component order, and returns the release they spell |
| Aggregate.SpellsOne | artifact/aggregate_manifest.go:148-255 | a wire value spells at most one release |
| Aggregate.Marshal | artifact/aggregate_manifest.go:136-146 | the encoding loop writes every component in order |
| Aggregate.RoundTrip | artifact/aggregate_manifest.go:136-255 | parsing a marshalled release returns it |
| Aggregate.CoversAllCells | artifact/aggregate_manifest.go:194-253 | a release has a component for every harness and extension |
| Aggregate.AssetIsMovingIff | artifact/aggregate_manifest.go:217-222 | an asset name contains "pasture-stable" if and only if its version does |
| Aggregate.ReleasableIff | artifact/aggregate_manifest.go:148-255 | a release of a valid version exists if and only if the version does not contain "pasture-stable" |
| Aggregate.MovingVersionIsValid | artifact/aggregate_types.go:204-246 | ParseVersion accepts a version that contains the word |
| AggregateVerify.ReadBounded | artifact/aggregate_verify.go:131-160 | reads exactly streams within the limit, without leaving int64 |
| AggregateVerify.VerifyComponents | artifact/aggregate_verify.go:100-116 | succeeds exactly when every component's bytes match and their sum is within the total; the running int64 total never overflows or exceeds the limit |
| AggregateVerify.VerifyAggregate | artifact/aggregate_verify.go:55-121 | returns a value exactly when the source publishes the wanted, compatible release with verifying bytes, and then holds the bytes of all nine components |
| Corpus.ValidateCorpus | internal/acceptance/loader.go:570-647 | accepts exactly well-formed corpora |
| Mutation.CloneCase | internal/acceptance/mutation.go:292-327 | the clone has the source's value and shares nothing that can be written through, its actors included |
| Mutation.MutateArg | internal/acceptance/mutation.go:260-280 | the in-place edit of the argument list is the specified one, for removal, replacement, a missing flag and a flag without value |
| Mutation.MutateSubject | internal/acceptance/mutation.go:204-210 | the loop over the subject flags changes the first one present |
| Mutation.ApplyMutation | internal/acceptance/mutation.go:172-258 | each of the eleven operators yields the specified mutant, and no object the source can reach is written |
| Mutation.MutationFrame | internal/acceptance/mutation.go:172-258 | a mutation touches only target and setup |
| Expansion.MutantIdInjective | internal/acceptance/mutation.go:84-84 | an id names its source and its operator |
| Expansion.CompletedIds | internal/acceptance/mutation.go:135-166 | of the completed-mutant rules only the field checks can fail: the id rules hold by construction |
| Expansion.Expander.SeeSources | internal/acceptance/mutation.go:50-60 | succeeds exactly when every source digests and no two digests agree |
| Expansion.Expander.Take | internal/acceptance/mutation.go:66-114 | one request is skipped and counted, or adds exactly its mutant, its digest and its counts; it fails exactly when the requests so far cannot be expanded |
| Expansion.ExpandMutations | internal/acceptance/mutation.go:34-133 | succeeds exactly on expandable corpora, and then holds the mutant of every request that applies, in id order, with one exact account per operator |
| Evaluation.ProducedAreDistinct | internal/acceptance/mutation.go:66-114 | mutant ids of one expansion are distinct |
| Evaluation.AtMostOncePerSource | internal/acceptance/report.go:104-106 | an operator is selected or incompatible at most once a source |
| Evaluation.ExpansionIsStructural | internal/acceptance/report.go:52-123 | every successful expansion passes every structural check of the evaluator |
| Evaluation.CheckExpansion | internal/acceptance/report.go:52-123 | the structural loops accept exactly structural expansions |
| Evaluation.SameOperators | internal/acceptance/report.go:121-123 | the final comparison of the two operator sets cannot fail |
| Evaluation.CheckObservations | internal/acceptance/report.go:124-150 | accepts exactly well-formed observations of known mutants, none observed twice |
| Evaluation.Run | internal/acceptance/report.go:151-169 | the counting loop settles every account by exactly the observations of its operator and names exactly the mutants observed with another oracle |
| Evaluation.EvaluateMutations | internal/acceptance/report.go:52-191 | malformed input is rejected; otherwise nil is returned if and only if every mutant was observed and every observation shows the declared oracle; an error names exactly the surviving mutants, the unobserved ones and the operators without an execution or a kill |
| Evaluation.Balanced | internal/acceptance/report.go:154-166 | in every report Executed = Killed + Survived, and Selected is the number of generated mutants |
| Evaluation.ExecutionsAddUp | internal/acceptance/report.go:154-184 | the executed counters of the report's rows add up to the number of observations |
| Evaluation.ExpandAndEvaluate | internal/acceptance/report.go:52-191 | on the expansion of a corpus the verdict depends on the observations alone |

## Left out

- The SQL and the effect of each schema step: a step is an opaque function on the stored data, and a SQLite transaction is atomic under one exclusive lock.
- SHA-256, JSON and YAML tokenising, regular-expression and Unicode machinery: hashes are opaque functions, and wire values are modelled after the token reader with their field and order rules.
- Error wording, exit codes, diagnostics and the fields of a durable fault record.
- The lane client, the lane server and the lifecycle handlers: their side is the contract that an answer is true of the journal row and that a refused or unanswered request may still be served.
- Network, package-manager probes, prompts, symlink resolution and clocks: parameters of a run that may take any value.
- The lines of a checksums file and of the aggregate's checksum sidecar: taken as the published hash of each asset and as the one canonical line.
- The field checks of an acceptance case (target, setup, delta, expectation, provenance): one predicate shared by validation, expansion and evaluation.
- File modes, staged temporary files and directory fsync of an installed binary: the rename is atomic and only contents are modelled.
- The field-name checks of an aggregate's JSON (unknown, repeated or case-folded keys), and a snapshot's semantic projections (which tables belong to which kind, and the journal's own sequence row).
- FaultLog.LineRetention: the fault record is a regular file that no one but these processes renames or truncates.
- TableDigest.CollidesIff: which table names and column lists SQLite lets exist is a parameter.
- TableDigest.StoreIsExact: SHA-256 is assumed to tell the inputs at hand apart.
- Encoding.EncodeFieldsInjective: lengths are below 2^64, as a Go string's are.
- TableReader.SnapshotTable: a table's key numbers are at most its column count, as SQLite numbers them, and every row has as many cells as the table has columns.
- Expansion.ExpandMutations: works on case values; the in-place edits behind each mutant are Mutation.ApplyMutation, whose result is the function used here, and the failure of a canonical JSON encoding is a digest that is absent.
- Mutation.ApplyMutation: re-encoding an object with one unknown field is an opaque function of the inline text; slices that no operator writes (tasks, deltas) are values, and an append makes a new array.
- Bundle.NewBundle: file reads are a function of the path for the duration of the call, and an error is its entry, rank and rendered text.
- AggregateVerify.VerifyAggregate: a runtime contract is compared with the registered one of its harness, which subsumes its own parse, and cancellation is a failed read.
- UpgradeRecovery.DownloadAndVerify: digests are compared as lower-case text, which for hexadecimal is what case folding compares.
