# Verified model of the desktop automation service

A Dafny model of six parts of the repository that carry hard guarantees, with proofs of those
guarantees. `dafny verify dfyconfig.toml` checks the whole project.

1. **Locks of the adapter engine** (`AdapterLocks.dfy`). Threads are step machines over the
   registry lock, one re-entrant lock per adapter object, the store lock and the gauge mutex. The
   documented level numbers alone are not a strict order, because a thread can hold the lock of a
   replaced adapter while it asks for that of its replacement; level plus registration number is.
   Which of its three reads of the registry a thread finds equal is decided by the registrations
   in between, for every run.
2. **Capability evidence** (`EvidenceRecords.dfy`, `AdapterEngine.dfy`, `Probe.dfy`,
   `EvidenceRuns.dfy`, `EvidenceOrigins.dfy`, `EvidenceRestarts.dfy`). The write probe against an
   application that may answer in any way, the verdict it leaves, what of a verdict survives a
   reload of arbitrarily edited manifests, and what is published. Over whole runs: where every
   success came from, and exactly what a restart brings back.
3. **Transactional updater** (`Updater.dfy`). Directories are finite maps changed entry by entry;
   a replacement may fail at any entry; rollback restores, over whole histories in which the
   manager may be replaced by a new one that reads the state file.
4. **Binary package writers** (`ArArchive.dfy`, `Cpio.dfy`, `RpmHeader.dfy`, `RpmFile.dfy`) for
   ar(5)/deb(5), SVR4 "newc" cpio, and the "Package File Format" chapter of the Linux Standard Base
   Core specification, each with a parser of its own that undoes the writer.
5. **Windows service control** (`ServiceControl.dfy`). A polling protocol over a service that
   changes state at will, with handles, a clock and deadlines.
6. **Text forms and small protocols**: accessibility selectors (`Selectors.dfy`), tree search
   (`Traversal.dfy`), unpadded base64url of section 5 of RFC 4648 (`Base64Url.dfy`), the WebSocket
   subprotocol key of section 11.3.4 of RFC 6455 and release signatures (`Credentials.dfy`, with
   the UTF-8 of section 3 of RFC 3629 in `Utf8.dfy`),
   checksum manifests (`ChecksumManifest.dfy`), the send window (`SendWindow.dfy`) and the audio
   set/readback/restore (`Audio.dfy`).

`Wrappers.dfy`, `Bytes.dfy`, `Texts.dfy` and `Clock.dfy` are shared vocabulary.

Objects whose methods update fields are classes, loops are loops, and each such method is tied to
a function of the old state; the lemmas are about those functions. Anything outside the code
(hooks, the service manager, an application, an audio endpoint, the disk, time) is an arbitrary
function or an arbitrary choice.

Where the code does not keep a promise as documented, the model keeps the code and a lemma says
exactly when the promise holds:

- The updater's permissions stage writes and removes `.winos_update_write_probe`; an install file
  of that name is lost (`FailureLeavesMembersIff`, `ProbeNameIsLost`). A version that contains `/` is not the version
  a rollback reads back (`VersionRestoredIff`).
- An ar member name survives only without `/` and with at most 15 characters
  (`NameReadsBackIff`).
- A label that starts with `*`, looks like a drive or contains a line-breaking character other
  than the line feed is accepted by the manifest builder and not read back (`ReadBackIff`,
  `StarIsLost`).
- A published selector is found unless an application listed before it raises
  (`SelectorRoundTripIff`, `SelectorNotFound`), except that of the desktop node and of a null
  object, which never is (`NullNotFound`); a role that contains `/` can make two selectors equal
  (`SlashInRoleCollides`).
- The manifest of an application lies in a file named after it, and every character other than
  letters, digits, `-`, `_` and `.` becomes `_`; so "crm a" and "crm_a" share a file
  (`SharedFileName`). A restart brings a saved adapter back exactly while no other application of
  its file name is saved (`SaveKeepsOtherIff`, `RestartKeepsIff`, `FirstIsLost`).
- An empty WebSocket key is never recovered (`EmptyKeyIsLost`).
- "restored" of the audio calls is true although nothing was restored when the endpoint ignores a
  set without an error (`SetVolume`, `RestoredButNot`).
- A stored action that leaves out its name, identifier or control type keeps a VERIFIED verdict
  whose fingerprint is not that of the restored action; it is then not published
  (`MisstampedIff`, `PublishesExactly`, `MissingNameKeepsProof`).
- Two published action names that shorten to one operation identifier make publication raise after
  the verdict is recorded, so the stored document is an older one (`RefusedIffClash`,
  `SecondSuccessIsNotPublished`); a tidy name and the same name with an underscore clash
  (`UnderscoreClashes`).
- A verdict is recorded on the adapter that was resolved first, while the probe acts on the
  adapter registered by then. They are the same exactly when the application was not registered
  between the two reads (`AdaptersAgreeIff`), which a run can violate
  (`VerdictOnReplacedAdapter`) and which holds while nobody creates or loads that application
  (`UnregisteredAppsAgree`). The recorded fingerprint is that of the probed content exactly when
  both contents are equal (`ProvesWhatWasProbedIff`, `ProbedElsewhere`). The level numbers alone
  are a strict order for a thread exactly as long as its reads agree (`LevelsSufficeIff`).
- Verifying a field of the fake application whose value is not text brings the value back as text
  (`FakeVerdict`, `NumberBecomesText`, `VerifyField`).

## Model

| member | source | states |
|---|---|---|
| AdapterLocks.AcquisitionsGoUp | windows_os_api/apps/adapters/lock_order.py:11-20 | In every state reachable by any number of threads, a blocking acquisition is re-entrant or of strictly higher rank than everything the thread holds |
| AdapterLocks.LevelsAloneAreNotStrict | windows_os_api/apps/adapters/engine.py:274-284 | A reachable run in which a thread holding one adapter lock asks for another of the same level |
| AdapterLocks.AdaptersAgreeIff | windows_os_api/apps/adapters/engine.py:274-293 | For every run and thread: the adapter recorded on, the one probed and the one written are pairwise equal exactly when the application was registered equally often at the reads that found them |
| AdapterLocks.VerdictOnReplacedAdapter | windows_os_api/apps/adapters/engine.py:274-311 | A reachable run about to record a verdict on another adapter than the one probed and written |
| AdapterLocks.UnregisteredAppsAgree | windows_os_api/apps/adapters/engine.py:274-293 | While no thread of a run creates or loads the application, the three reads always agree |
| AdapterLocks.LevelsSufficeIff | windows_os_api/apps/adapters/lock_order.py:11-20 | In every reachable state the documented levels alone order a thread's wait strictly exactly when no registration happened between the read before and the read of the adapter it waits for |
| AdapterLocks.StepInv | windows_os_api/apps/adapters/engine.py:139-149 | Every step of every thread keeps the invariant on held locks, registry and gauge |
| AdapterLocks.MutualExclusionAndGauge | windows_os_api/apps/adapters/verification.py:163-173 | No lock is ever held twice and the gauge always counts the running probes |
| AdapterLocks.Climb | windows_os_api/apps/adapters/lock_order.md:3-12 | From any unfinished thread, following holders of wanted locks reaches a thread that can step |
| AdapterLocks.DeadlockFree | windows_os_api/apps/adapters/lock_order.py:11-20 | While some thread of a run is unfinished, some thread can step |
| AdapterLocks.RunBurnsFuel | windows_os_api/apps/adapters/verification.py:344-361 | Every run is no longer than a bound computed from its threads |
| AdapterLocks.EveryRunFinishes | windows_os_api/apps/adapters/engine.py:281-318 | Runs are finite and one that cannot be extended has finished every thread |
| EvidenceRecords.VerdictIsMinted | windows_os_api/apps/adapters/verification.py:128-146 | A made verdict carries a non-blank verification id exactly when it claims success |
| EvidenceRecords.SurvivesIff | windows_os_api/apps/adapters/store.py:169-238 | Exactly complete proofs of the given content survive, unchanged; nothing is promoted |
| EvidenceRecords.SanitizeIsIdempotent | windows_os_api/apps/adapters/store.py:169-238 | Sanitizing twice is sanitizing once and leaves no identifier on anything but a success |
| EvidenceRecords.MisstampedIff | windows_os_api/apps/adapters/engine.py:216-233 | A restored action is verified with a foreign fingerprint exactly when a proven entry left a fingerprinted field out |
| EvidenceRecords.ActionRoundTrip | windows_os_api/apps/adapters/store.py:118-134 | Saving and loading an action gives it back exactly when its evidence is about its own content |
| EvidenceRecords.SaveLoadRoundTrip | windows_os_api/apps/adapters/store.py:271-304 | All actions of an adapter come back in order with the same verified ones, foreign evidence excepted |
| VirtualApi.PathsList | windows_os_api/apps/adapters/engine.py:600-618 | The document has one path for every publishable action, with the identifier of its name, and no other |
| VirtualApi.RefusedIffClash | windows_os_api/apps/schema/openapi_export.py:371-397 | Validation refuses a document exactly when two published names shorten to one fragment |
| VirtualApi.TidyNamesPublish | windows_os_api/apps/schema/openapi_export.py:30-38 | Names that are their own fragment never make publication raise |
| VirtualApi.UnderscoreClashes | windows_os_api/apps/schema/openapi_export.py:30-38 | A tidy name clashes with the same name followed by an underscore |
| VirtualApi.Validate | windows_os_api/apps/schema/openapi_export.py:371-397 | The loop over operations accepts exactly documents with unique operation identifiers |
| VirtualApi.GenerateOpenapi | windows_os_api/apps/adapters/engine.py:576-626 | The loop builds the document of the publishable actions, or raises exactly on a clash |
| AdapterEngine.PublishesExactly | windows_os_api/apps/schema/openapi_export.py:556-575 | The paths are those of the verified actions whose evidence is about their own content |
| AdapterEngine.JudgedProperties | windows_os_api/apps/adapters/engine.py:286-308 | Of any verdict: a success is recorded exactly when it was one for content that did not change meanwhile, with its fingerprint |
| AdapterEngine.VerdictMeans | windows_os_api/apps/adapters/engine.py:284-313 | A verdict goes to the first action of its name and to no other, is a success exactly for unchanged content, and the document follows it or, when names clash, is known to be stale |
| AdapterEngine.ProvesWhatWasProbedIff | windows_os_api/apps/adapters/engine.py:284-308 | A recorded success names the content of the recorded action, and names the probed content exactly when the two are equal |
| AdapterEngine.ProbedElsewhere | windows_os_api/apps/adapters/engine.py:284-308 | Two actions of one name such that a success of one is recorded on the other and is no proof of the first |
| AdapterEngine.MissingNameKeepsProof | windows_os_api/apps/adapters/engine.py:216-233 | A stored entry without a name that is restored with a success for other content, for every fingerprint |
| AdapterEngine.SecondSuccessIsNotPublished | windows_os_api/apps/adapters/engine.py:306-313 | For every tidy name, two actions of which the second success makes publication raise and leaves the document behind |
| AdapterEngine.RestoredIsKept | windows_os_api/apps/adapters/engine.py:211-239 | Whatever a manifest says, restored evidence is well kept; complete entries are well stamped |
| AdapterEngine.Restore | windows_os_api/apps/adapters/engine.py:211-241 | One manifest gives an unbound adapter with mirrored document, or raises exactly on a clash |
| AdapterEngine.Judge | windows_os_api/apps/adapters/engine.py:284-313 | The steps on one adapter compute the state and the outcome that VerdictMeans describes |
| AdapterEngine.WrittenInWhole | windows_os_api/apps/adapters/store.py:144-156 | Wherever writing and renaming the temporary file stops, the listed manifests are the old ones or those with the new one in whole |
| AdapterEngine.Engine.Save | windows_os_api/apps/adapters/store.py:144-156 | The steps on the directory, and what loading then sees: the old store, or the store with this manifest in whole |
| AdapterEngine.Engine.CreateAdapter | windows_os_api/apps/adapters/engine.py:116-155 | A new unverified adapter with empty document is registered and saved; a blank name changes nothing |
| AdapterEngine.Engine.LoadPersistedAdapters | windows_os_api/apps/adapters/engine.py:169-252 | Registered adapters stay, only and all readable trusted manifests of other applications are registered, unless a trusted one with clashing names raises |
| AdapterEngine.Engine.RecordVerdict | windows_os_api/apps/adapters/engine.py:281-335 | That verdict on any adapter ever made, its persisted flag, and the store, for every disk outcome; all other adapters stay |
| EvidenceRuns.Run | windows_os_api/apps/adapters/engine.py:254-335 | Any sequence of create, load, verify, reset and store edit on a fresh engine is a run of the transition relation, from the engine's first moment to its last |
| EvidenceRuns.RunStaysGood | windows_os_api/apps/adapters/engine.py:254-335 | At every moment of a run every adapter has well kept evidence and a document that mirrors it unless names clash, and the registry names it |
| EvidenceRuns.RunStaysStamped | windows_os_api/apps/adapters/engine.py:216-233 | Unless an incomplete manifest gets into the store, at every moment of a run every success is about the content of its own action |
| EvidenceOrigins.RunIsSourced | windows_os_api/apps/adapters/engine.py:284-308 | At every moment of a run each verified action has its evidence from an earlier entry for its application and content, or from an earlier verdict on that application and content, stamped with its fingerprint, whose attempts all succeeded |
| EvidenceOrigins.UnforgedMeansProbed | windows_os_api/apps/adapters/verification.py:237-328 | When no file claims a success, each verified action goes back to a verdict on its name, application and content, whose attempts each read, wrote, read, wrote back and read |
| EvidenceRuns.RecordsArePossible | windows_os_api/apps/adapters/verification.py:128-146 | What the verifier makes of any attempts is a verdict that the engine's runs allow |
| EvidenceOrigins.LoadedFrom | windows_os_api/apps/adapters/engine.py:169-252 | Loading brings no success that the files do not claim for that application and content |
| EvidenceRestarts.SaveKeepsOtherIff | windows_os_api/apps/adapters/store.py:100-105 | After two applications are saved the manifest of the first is still there exactly when their file names differ |
| EvidenceRestarts.SharedFileName | windows_os_api/apps/adapters/store.py:100-105 | "crm a" and "crm_a" have one file name |
| EvidenceRestarts.FileKeptIff | windows_os_api/apps/adapters/store.py:144-156 | From the last save of an application to any later moment without a store edit, its file holds its manifest exactly when no other application of that file name was saved |
| EvidenceRestarts.LastTouchDecides | windows_os_api/apps/adapters/store.py:144-156 | With edits: the last operation that touches the file decides, and keeps the manifest exactly when it is an edit that contains it |
| EvidenceRestarts.RunStaysTidy | windows_os_api/apps/adapters/store.py:100-156 | In every run whose edits do so too, manifests lie under the names of their applications and can be published again |
| EvidenceRestarts.Restart | windows_os_api/apps/adapters/engine.py:169-252 | A new engine over the same directory holds exactly what the trusted manifests say, and loading a tidy store does not raise |
| EvidenceRestarts.RestartKeepsIff | windows_os_api/apps/adapters/engine.py:169-252 | After any run, a restart brings an adapter back with its last saved actions and successes if and only if its manifest is trusted and no other application of its file name was saved since; otherwise the application is gone |
| EvidenceRestarts.RestartIsExact | windows_os_api/apps/adapters/engine.py:169-252 | Without incomplete manifests the actions that come back are exactly those that were saved |
| EvidenceRestarts.FirstIsLost | windows_os_api/apps/adapters/store.py:100-105 | In every run that creates "crm a" and then "crm_a", no restart knows the first |
| AdapterEngine.EvidenceInvariant | windows_os_api/apps/adapters/engine.py:576-626 | A verified action carries an identifier and its own fingerprint; the stored document mirrors the verified actions if and only if no names clash |
| Probe.WaitForValue | windows_os_api/apps/adapters/verification.py:102-118 | Polling ends with the value, an error or the deadline, after at most one reading per interval and one more |
| Probe.VerifyEdit | windows_os_api/apps/adapters/verification.py:205-328 | The trace of a probe and its verdict, for every behaviour of the application |
| Probe.VerifiedMeans | windows_os_api/apps/adapters/verification.py:237-328 | Verified means: read original, write a different probe, read it, write original, read it, and no other write |
| Probe.VerifiedIff | windows_os_api/apps/adapters/verification.py:249-328 | A verdict is verified exactly when both the probe and the undoing write were accepted and seen |
| Probe.OriginalInView | windows_os_api/apps/adapters/verification.py:291-328 | After an attempt the last observation is the original exactly when the code is not "rollback failed" |
| Probe.SessionWrites | windows_os_api/apps/adapters/verification.py:229-300 | A probe writes nothing, or the probe value and then the original |
| Probe.VerifyAction | windows_os_api/apps/adapters/verification.py:176-341 | Only a found, bound, permitted edit action touches the application, and only it can be verified |
| Probe.CombinedIff | windows_os_api/apps/adapters/verification.py:358-369 | Repeated attempts are verified exactly when each is, and unstable exactly when two differ |
| Probe.RepeatedVerifiedIff | windows_os_api/apps/adapters/verification.py:358-369 | The combined verdict of attempts is verified exactly when each of them is a successful probe |
| Probe.VerifyActionRepeatedly | windows_os_api/apps/adapters/verification.py:344-369 | The trace is that of the attempts made, each under its own setup; the verdict combines theirs, and is verified exactly when every attempt was a probe that succeeded |
| Probe.RecordIsMinted | windows_os_api/apps/adapters/verification.py:128-146 | The record of a verdict is what the engine's invariant asks of it |
| FakeBackend.Backend.SetUiValue | windows_os_api/backends/fake.py:552-575 | In the list of all controls the first of that identifier gets the text if it is an edit field; no other control changes, and a refusal changes none |
| FakeBackend.FindIsFirst | windows_os_api/backends/fake.py:60-68 | The recursive search returns the first control of that identifier in document order |
| FakeBackend.WriteIsFirst | windows_os_api/backends/fake.py:552-575 | Writing to the found node changes the value of that control in the list of all controls, and nothing else |
| FakeBackend.Backend.Observe | windows_os_api/backends/fake.py:440-452 | Reading the backend is the reading of the fake application that the verifier is proved on |
| FakeBackend.Backend.Invoke | windows_os_api/apps/adapters/engine.py:511-542 | Invoking an edit action on the backend is the writing of that fake application |
| FakeBackend.Backend.Take | windows_os_api/apps/adapters/engine.py:511-542 | Stepping a trace through observing and invoking answers as in the trace exactly when it is one of the fake application, and leaves the tree that is left there |
| FakeBackend.FoundAfterWrite | windows_os_api/backends/fake.py:60-68 | After a write the same first node is found, with only its value changed |
| FakeBackend.LastWriteWins | windows_os_api/backends/fake.py:552-575 | Two writes to one identifier leave the tree the second alone would leave |
| FakeBackend.SameWriteIff | windows_os_api/backends/fake.py:552-575 | A write leaves the whole tree as it was exactly when it writes the value already there |
| FakeBackend.WriteAndUndo | windows_os_api/backends/fake.py:552-575 | The probe and then the original show exactly in an edit field, and leave the tree as it was exactly unless the original was not text |
| FakeBackend.FakeVerdict | windows_os_api/backends/fake.py:440-575 | On the fake, verified exactly for an edit field with a value; then the tree afterwards has the text of that value, and it is as it was exactly unless the value was not text |
| FakeBackend.NumberBecomesText | windows_os_api/backends/fake.py:552-575 | A field that holds the number 5 is verified and left with the text "5" |
| FakeBackend.Backend.VerifyField | windows_os_api/apps/adapters/engine.py:511-542 | One verification, with each of its observations and invocations made on the backend: the verdict, and exactly when the tree is as it was |
| BackupNames.VersionRestoredIff | windows_os_api/update/manager.py:487-488 | A rollback reads back the version exactly when it has no "/" |
| Updater.UpdateManager.Open | windows_os_api/update/manager.py:60-66 | A new manager knows what the state file says, or the initial state without one; anything else in it raises |
| Updater.UpdateManager.ReplaceInstallTree | windows_os_api/update/manager.py:141-169 | The entry-by-entry replacement raises exactly on the injected fault or a clash of kinds, else gives the package |
| Updater.UpdateManager.BackupCurrent | windows_os_api/update/manager.py:122-139 | The program files are copied under the name of the version, which is appended to the list |
| Updater.UpdateManager.Rollback | windows_os_api/update/manager.py:451-490 | The newest listed backup is restored and orphans removed, or nothing happens without one |
| Updater.UpdateManager.InstallDirWritable | windows_os_api/update/manager.py:219-232 | What the write probe leaves in the directory, for every way it can fail |
| Updater.UpdateManager.RunStages | windows_os_api/update/manager.py:340-397 | Stop, replace, start and health end at the first failing stage with its trail, for a fault at any entry or at the state file |
| Updater.UpdateManager.ReplaceAndSave | windows_os_api/update/manager.py:355-363 | The replace stage raises exactly on a fault of the tree or of the state file; the version in memory changes as soon as the tree is replaced |
| Updater.UpdateManager.ApplyOsTransactional | windows_os_api/update/manager.py:234-397 | Final state and report of a whole call, for every package, hook result and fault |
| Updater.ReportIsHonest | windows_os_api/update/manager.py:234-397 | The trail is a prefix of the fixed order ending at the reported stage, and ok holds exactly at "done" |
| UpdateGuarantees.ProbeLeavesTreeIff | windows_os_api/update/manager.py:219-232 | The write probe leaves the directory unchanged exactly in the listed cases |
| UpdateGuarantees.AllOrNothing | windows_os_api/update/manager.py:234-397 | A call installs package and version, or stops before the backup, or restores members and version |
| UpdateGuarantees.FailureLeavesMembersIff | windows_os_api/update/manager.py:321-338 | A failed call leaves every program file as it was exactly unless the write probe ran, on a verified package with all hooks, and disturbed the directory |
| UpdateGuarantees.ProbeNameIsLost | windows_os_api/update/manager.py:219-232 | A call that fails to stop the service and has lost an installed file of the probe's name |
| UpdateGuarantees.FailureKeepsVersionIff | windows_os_api/update/manager.py:451-490 | A failed call keeps the version exactly when it has no "/" |
| UpdateGuarantees.HistoryKeepsNewest | windows_os_api/update/manager.py:122-139 | After any applies, rollbacks, edits and new managers the newest listed backup is the tree of the last backup |
| UpdateGuarantees.RollbackAfterHistory | windows_os_api/update/manager.py:451-490 | After any such history and edit a rollback restores exactly the tree of the last backup without orphans, and its version exactly when that has no "/"; a second one changes nothing |
| UpdateGuarantees.SameVersionBackupOverwrites | windows_os_api/update/manager.py:124-126 | A second backup of one version replaces the first while both stay listed |
| UpdateGuarantees.HistoryKeepsSynced | windows_os_api/update/manager.py:60-69 | After any history a new manager knows exactly what the old one knew |
| ArArchive.WriteSucceedsIff | scripts/linux_package_formats.py:102-118 | A member is written exactly for an ASCII name and a size of at most ten digits |
| ArArchive.SizeReadsBack | scripts/linux_package_formats.py:111 | The decimal size field always parses back to the length |
| ArArchive.NameReadsBackIff | scripts/linux_package_formats.py:104 | The name field reads back exactly for "/"-free names of at most 15 characters |
| ArArchive.ReadUndoesWriteIff | scripts/linux_package_formats.py:102-118 | A member followed by anything reads back exactly when its name fits |
| ArArchive.ArchiveRoundTrip | scripts/linux_package_formats.py:194-202 | Parsing the blob after its magic gives the original members |
| ArArchive.MembersStartEven | scripts/linux_package_formats.py:116-118 | Every member starts at an even offset |
| ArArchive.DebRoundTripIff | scripts/linux_package_formats.py:194-202 | A deb is written exactly when both tar files fit the size field, and then reads back whole |
| Cpio.BuildArchive | scripts/linux_package_formats.py:361-364 | The loop over files gives the concatenated entries and the trailer |
| Cpio.ReadUndoesWriteIff | scripts/linux_package_formats.py:260-288 | An entry followed by anything reads back exactly when its name has no NUL |
| Cpio.EntryAligned | scripts/linux_package_formats.py:283-288 | Every entry is a multiple of four bytes long |
| Cpio.EntriesStartAligned | scripts/linux_package_formats.py:361-365 | In an archive every entry and the trailer start at a multiple of four |
| Cpio.ArchiveRoundTripIff | scripts/linux_package_formats.py:361-365 | An archive parses back to its entries exactly when no name has a NUL or is the trailer's |
| RpmHeader.SortedProperties | scripts/linux_package_formats.py:297 | The index order is by tag, stable, and a permutation |
| RpmHeader.PadTo | scripts/linux_package_formats.py:302-325 | The padding loops append the least number of zero bytes |
| RpmHeader.AppendEntry | scripts/linux_package_formats.py:300-322 | One turn of the loop aligns, appends and records where the data went |
| RpmHeader.HeaderStore | scripts/linux_package_formats.py:291-326 | The loops give index and store of the sorted entries, or raise exactly when a number does not fit |
| RpmHeader.PackableIff | scripts/linux_package_formats.py:322 | With a store below 32 bits, packing raises exactly for a tag or type of more than 32 |
| RpmHeader.EntryInStore | scripts/linux_package_formats.py:305-322 | Where an entry is recorded, its bytes are in the store |
| RpmHeader.RegionsOrdered | scripts/linux_package_formats.py:300-322 | Regions of the store are disjoint and in index order |
| RpmHeader.IntegersAligned | scripts/linux_package_formats.py:301-305 | Offsets of INT32 entries are multiples of four |
| RpmHeader.StoreAligned | scripts/linux_package_formats.py:323-325 | The store length is a multiple of eight |
| RpmHeader.EntryReadsBackIff | scripts/linux_package_formats.py:291-326 | An index record reads back its value exactly when the data is what its type allows |
| RpmHeader.HeaderRoundTrip | scripts/linux_package_formats.py:291-326 | Reading a written header gives every entry in tag order with its value |
| RpmFile.FileRoundTrip | scripts/linux_package_formats.py:408-452 | A file is found to have a 96-byte lead, a signature whose SIZE is what follows it, a header at a multiple of eight, and the payload |
| RpmFile.FileWrittenIff | scripts/linux_package_formats.py:408-452 | A file is written exactly for an ASCII name, tags and types of 32 bits, and a header and payload of together less than 32 bits |
| RpmFile.HeaderWrittenIff | scripts/linux_package_formats.py:408-452 | A header whose sizes fit is written exactly for tags and types of 32 bits, with the computed size |
| ServiceControl.Controller.WaitTerminal | windows_os_api/backends/windows_services.py:426-488 | One wait reports the last queried state, is ok exactly when that is the wanted one, and keeps the bounds on queries and sleep |
| ServiceControl.Controller.PollUntil | windows_os_api/backends/windows_services.py:436-453 | The polling loop ends within one query per interval and one more, sleeping at most the timeout |
| ServiceControl.Controller.Request | windows_os_api/backends/windows_services.py:265-335 | One request is sent, and ok means the last query returned the wanted state |
| ServiceControl.Controller.DoRestart | windows_os_api/backends/windows_services.py:338-423 | A restart starts only after an observed stop, and ok means last seen running |
| ServiceControl.Controller.RunAction | windows_os_api/backends/windows_services.py:153-240 | No request follows a conflicting first query; a status sends none; ok is the last observation |
| ServiceControl.Controller.ControlService | windows_os_api/backends/windows_services.py:79-240 | On every path the opened handles are closed once, service before manager, and the outcome is true |
| ServiceControl.StartAfter | windows_os_api/backends/windows_services.py:338-423 | A single start request sent after an observation is a start from that observation |
| AtspiTree.GetUiTree | windows_os_api/backends/linux.py:1142-1172 | The loops give the desktop node with one child per fetched application |
| AtspiIdentity.IdDetermines | windows_os_api/backends/linux.py:985-1020 | With "/"-free roles and distinct applications an identifier determines the position |
| SelectorRoundTrip.TreeShowsPublished | windows_os_api/backends/linux.py:1022-1074 | The returned tree has exactly one node for every published position, with its identifier, the desktop included |
| SelectorRoundTrip.DesktopIsApart | windows_os_api/backends/linux.py:1142-1172 | No node of an application has the identifier of the desktop |
| SelectorRoundTrip.IdsDistinctIff | windows_os_api/backends/linux.py:985-1074 | All published identifiers are distinct exactly when those of the applications are |
| SelectorRoundTrip.SelectorRoundTripIff | windows_os_api/backends/linux.py:1076-1108 | Looking up a published identifier returns that very node exactly when it is neither the desktop nor a null object and no earlier application raises; those two are never found |
| SelectorRoundTrip.SelectorNotFound | windows_os_api/backends/linux.py:1076-1108 | A published identifier that is not found, behind an application that raises |
| SelectorRoundTrip.NullNotFound | windows_os_api/backends/linux.py:1050-1108 | A null object is published with an identifier that is not found |
| SelectorRoundTrip.SlashInRoleCollides | windows_os_api/backends/linux.py:985-1020 | A role with "/" can give two nodes one identifier |
| Traversal.FindOnStack | windows_os_api/backends/linux.py:1198-1218 | The loop over an explicit stack is the recursive pre-order search |
| Traversal.FindAccessibleLinux | windows_os_api/backends/linux.py:1186-1218 | The Linux search below the desktop node is that search with its predicate |
| Traversal.FindAccessibleWindows | windows_os_api/backends/windows.py:978-1001 | The Windows search from the root is that search with its predicate |
| Traversal.SearchIsFirst | windows_os_api/backends/windows.py:986-1001 | The search returns the first node in document order that satisfies the predicate |
| Base64Url.RepaddingExact | windows_os_api/api/websocket/bus.py:63-72 | Padding by the negated length modulo four restores exactly what was removed |
| Base64Url.RoundTrip | windows_os_api/installer/release_attestation.py:62-68 | Decoding an encoding gives back every byte string |
| Base64Url.EncodeEmptyIff | windows_os_api/api/websocket/bus.py:63-64 | Only the empty string encodes to the empty token |
| Utf8.RoundTrip | windows_os_api/api/websocket/bus.py:63-72 | Every text comes back from its UTF-8 bytes |
| Subprotocol.ExtractKey | windows_os_api/api/websocket/bus.py:117-129 | The loop returns the first token whose bytes are the UTF-8 of a non-empty key |
| Subprotocol.HeaderRoundTrip | windows_os_api/api/websocket/bus.py:75-129 | A non-empty key is recovered from any header in which no earlier token has the prefix |
| Subprotocol.EmptyKeyIsLost | windows_os_api/api/websocket/bus.py:117-129 | An empty key is never recovered |
| Subprotocol.InvalidTextIsSkipped | windows_os_api/api/websocket/bus.py:67-72 | A token whose bytes are not UTF-8 is passed over |
| Attestation.SignatureTextRoundTrip | windows_os_api/installer/release_attestation.py:317-350 | The exact signature bytes come back from their text for every accepted key id |
| Attestation.AttachedSignatureVerifies | windows_os_api/installer/release_attestation.py:353-370 | An attached signature checks on the signed document itself |
| Attestation.VerifiesOtherDocumentIff | windows_os_api/installer/release_attestation.py:331-350 | It checks on another document exactly when both differ in the signature alone |
| ManifestText.ParseManifest | windows_os_api/update/checksum_manifest.py:152-173 | The loop over lines computes the map or the error of the text |
| ManifestText.WrittenLine | windows_os_api/update/checksum_manifest.py:32 | A written line is read as its own entry, except that a leading asterisk is lost |
| ManifestText.ParseCollects | windows_os_api/update/checksum_manifest.py:152-173 | A successful parse read every line and found only what some line says |
| ManifestText.ReadBackIff | windows_os_api/update/checksum_manifest.py:152-173 | Parsing the built text gives exactly the label-to-digest map if and only if every label is plain |
| ManifestText.StarIsLost | windows_os_api/update/checksum_manifest.py:32 | The label "*x" is accepted by the builder and not read back |
| ChecksumManifest.ListingIsUnique | windows_os_api/update/checksum_manifest.py:103-117 | The lines depend on nothing but which files the inputs stand for |
| ChecksumManifest.BuildChecksumLines | windows_os_api/update/checksum_manifest.py:85-117 | The builder succeeds exactly on acceptable files, lists exactly them by label, and never the output |
| ChecksumManifest.VerifyManifest | windows_os_api/update/checksum_manifest.py:176-234 | Verification returns the parsed map exactly when every label leads to a file of its digest |
| ChecksumManifest.LabelledFrom | windows_os_api/update/checksum_manifest.py:54-62 | Files are labelled by their path from a base that was the root or holds them all directly |
| ChecksumManifest.LabelLeadsBack | windows_os_api/update/checksum_manifest.py:54-62 | A label found under its root leads back to the file it was made for |
| ChecksumManifest.VerifiesIffUnchanged | windows_os_api/update/checksum_manifest.py:176-234 | A built manifest verifies on a later disk if and only if its labels are plain and no listed file is missing or altered |
| SendWindow.AddOne | windows_os_api/api/websocket/bus.py:299-310 | A send into a window with room keeps the rate bound, for send instants and for noted times |
| SendWindow.Connection.FloodExceeded | windows_os_api/api/websocket/bus.py:276-280 | Pruning keeps exactly the recent sends and compares their number with the limit |
| SendWindow.Connection.Run | windows_os_api/api/websocket/bus.py:282-314 | What is sent is the visible events in order up to a revocation or a full window |
| SendWindow.WindowNeverOverflows | windows_os_api/api/websocket/bus.py:276-280 | No closed interval of one second holds more than 120 sends |
| Percents.PercentOfLevel | windows_os_api/backends/windows_audio.py:488-491 | A level set from a percentage is reported as that percentage |
| Percents.LevelOfPercent | windows_os_api/backends/windows_audio.py:469-472 | Setting what was read moves the level by at most half a percent |
| Audio.AttemptRestore | windows_os_api/backends/windows_audio.py:123-140 | Restoring reports true exactly when neither set raised, and says what then holds |
| Audio.SetVolume | windows_os_api/backends/windows_audio.py:143-246 | Success is the truth about the endpoint; a failed attempt is undone, and "restored" is true exactly unless the restoring set was ignored |
| Audio.SetMute | windows_os_api/backends/windows_audio.py:249-355 | The same for the mute, with the level kept within half a percent |
| Audio.RestoredButNot | windows_os_api/backends/windows_audio.py:123-140 | A session in which "restored" is true and the level is not |

## Left out

- ControlService: stated for a positive poll interval; with a poll of zero or less the wait is a busy loop whose end depends on real time alone.
- ControlService: the pattern of service names and the canonical spelling of actions are reduced to flags.
- ApplyOsTransactional: failures of the backup or the rollback themselves, of the state file outside the replace stage, and hooks that edit the install directory, are assumed not to happen; journal texts and the plain `apply` are not modelled.
- BackupCurrent: a backup name with "/" is one key, so nested backup directories of such versions, Windows separators, and a backup directory inside the install directory are not captured.
- RpmFile.FileRoundTrip: the concrete list of tags and the gzip payload are inputs, not computed.
- DebRoundTripIff: the two tar files are given bytes.
- AttachedSignatureVerifies: canonical JSON is an arbitrary (where needed injective) function and a signature scheme an ideal pair of functions; digests are arbitrary texts of 64 hexadecimal digits, fingerprints an injective function.
- SelectorRoundTripIff: the accessibility forest does not change between the two walks, and properties other than children do not raise.
- LoadPersistedAdapters: files are read in any order rather than sorted; a fingerprinted field of a manifest entry is text or missing, parameters are a list of texts, evidence values are texts or integers; the trust decision is an arbitrary function.
- RecordVerdict: the evidence text of a verdict on edited content is shortened. One critical section is one call, and adapters are named by the number of their making instead of by reference; the branch that demotes tampered actions on invoke is not modelled.
- VerifyActionRepeatedly: the attempts of one call act on one application; whatever replaces the adapter in between shows in the setup of each attempt and in the arbitrary answers.
- UnforgedMeansProbed: the application that the attempts probed is not tied to the action they are recorded on, because the code does not tie it (see ProbedElsewhere).
- RestartKeepsIff: file names that differ in case only are different files, and only the engine and the modelled edits write into the directory.
- VerifyEdit: the vision fallback, the Windows automation setter and the click paths of an invocation are part of the arbitrary application; on the fake application only the edit path exists.
- SetVolume: nobody else moves the endpoint during a call, and levels are exact reals instead of floats.
- VerifyManifest: POSIX paths only; the universal-newline translation of reading a file, which moves no line boundary of a manifest, is not modelled; home-directory expansion happens before.
- SendWindow.Connection.Run: of the send loop only events, revocation, visibility and the flood limit are modelled, not the handshake, idle timeout and bus errors.
- AcquisitionsGoUp: locks of the trust store, the key store and the proof registry are outside the documented order and not modelled.
- Discovery of windows and processes, REST and MCP routes, release discovery, metrics and installers add no state beyond what is above.
