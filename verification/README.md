# DIP generation and SIP ingest, modelled and proved in Dafny

The repository holds Temporal workflows that take digital records in and give them out again. On the way in, a
submission package (SIP) is validated, described in PREMIS and restructured into a preservation package (PIP). On
the way out, a dissemination package (DIP) is generated on request, kept in a bucket until it expires, and deleted.
The modules here model the parts of that logic which have state, and prove what the parts are for.

**DIP lifecycle.** `DipRow` is the database record of a generation and the two ways it changes: the `update-dip`
activity and a renewal by a new request. `DipStore` is the table and its two transactions. `CreateDip` is the
`create-dip` workflow as a step system over record, bucket, clock and workflow state, in which activities run at
least once, acknowledgements get lost, sessions fail, and the API renews, time passes and operators cancel at any
moment. `CreateDipSafety` proves safety over every run of that system. `CreateDipWorkflow` is the workflow code
itself, with its loops and its deferred function, each step of which is a step of the system, so what holds of
every run holds of the code. `CreateDipRecord` says what each step of a run writes, and what a run without faults and a
cancelled one end in. `Session` is the part that fills the working directory, and `ParseMetadata` the activity
in it that finds out which files are wanted and where they are.

**The inventory and its two readers.** `Xml` has token streams and trees, `Manifest` the streaming parser with its
stack, `Export` the recursive reader. `Inventory`, `InventoryPrinter` and `ReadersAgree` say what both make of a
package, and `PrintedExport` that the recursive one undoes the same printer. `MetsMatch` finds the content files in the
METS files of the AIPs, `MetsHits` says what there is to be found in the elements of such a file, and `DeclaredFiles` what
the two together declare of a package.

**PREMIS.** `Premis` has the document as a list of children with white space, `PremisDocument` the operations on it,
`PremisRun` the activities and the order in which the preprocessing workflow runs them, and `PremisStories` what the
finished file says element by element.

**Restructuring.** `FileSystem` is a tree of entries and a disk that may fail at any call, `Sip` the layouts of the
four package types, `Layouts` the same as paths, `TransformSip` the restructuring activity, `Identifiers` the lists of identifiers, `PathAgreement`
the relation between the places that compute where a file is, `DescribedPackages` the step from describing a package to
restructuring it, `IdentifierFile` what becomes of every path that a
manifest can list, and `WriteIdentifiers` the activity that lists the files of the restructured package.

**Validation.** `PackageTree` is the walk over a directory tree; `ValidateStructure` and `StructureReport` are the
structure validator, `StructureRules` its rules written out, `VerifyManifest` the manifest check, `VerifyFindings` what
its findings say of the package, `MapOrder` says when the order of a map decides what that check
reports, `CollidingPaths` has two documents for it, `MetsPaths` the automaton that finds two metadata files in a
METS file, and `MetsTree` says what its flags mean for the tree of the document. `ValidatedPackages` shows when a package
that was accepted can be restructured, `VerifiedPackages` that the files of a package that was verified are identified
where they are, and `BornDigitalGap` has the package for which that fails.

`Paths` is Go's `path` package as far as it is used (`Clean`, `Join`, `Dir`, `Base`), and `Sorting` and `Wrappers`
are helpers. In the lemmas, a path that is the joining of names is `Path(rooted, names)`, and a `Location` is the list
of names.

## What does not hold

Some things that one would expect of the code are false. Each has a lemma with the exact condition or with a run or
an input that shows it.

- A stored record can lose its object while its expiry lies ahead: when the final update is committed but reported
  as failed, the deferred function deletes what it has uploaded
  (`CreateDipSafety.UnacknowledgedStoredRecordLosesItsObject`). A stored record is without its object if and only if the
  deferred function has removed it (`CreateDipSafety.StoredObjectIsMissingIff`), and that function sets out to remove
  the object of a stored record if and only if its final update was reported as failed
  (`CreateDipSafety.StoredIsUndoneIff`).
- Repeating a key removal is not always harmless (`DipRow.RepeatedClearIsHarmlessIff`). With nothing but renewals in
  between it is (`DipRow.ClearingAgainAfterRenewals`), and the workflow only removes the key of a completed record when
  the object is gone (`CreateDipSafety.KeyIsClearedOnlyAfterTheObject`).
- A name that a comment splits is read by the streaming parser as two names, and the first of them stays in the path for
  what follows (`Inventory.SplitNameIsTwoNames`); a folder whose name comes after a file does not contain that file
  (`Inventory.LateNameComesTooLate`).
- An event added to a PREMIS file that has neither objects nor events can land between agents
  (`Premis.EventKeepsOrderIff`, `Premis.EventAmongAgents`). A run from a fresh document never does that: without content
  files it adds no event at all (`PremisRun.Activities.WritePremisFile`).
- Adding objects to a PREMIS file that already has events or agents breaks the order
  (`PremisRun.ObjectsKeepOrderIff`).
- Path conversion goes by the last name of a path, so a content file called `metadata.xml` or
  `UpdatedAreldaMetadata.xml` gets the path of another file (`PathAgreement.PathsAgree`,
  `PathAgreement.ConversionCollidesIff`, `IdentifierFile.IdentifiersAreDistinctIff`). For which of all paths of a manifest
  conversion and restructuring agree is `IdentifierFile.ManifestPathsAgreeIff`.
- For born-digital AIPs the restructured package does not have its manifest where its PIP says
  (`PathAgreement.ManifestIsFoundIff`). What stands there is the old metadata file, and the identifier file is made from
  that (`WriteIdentifiers.WhichManifest`), although nothing compares it with the package. A content file without a
  special name is identified if and only if the manifest that is read lists it
  (`WriteIdentifiers.ContentIsIdentifiedIffListed`), and there is an accepted and verified package with a content file
  that is not (`BornDigitalGap.ContentFileIsNotIdentified`).
- Text that an ignored element splits is not read like the same text in one piece: of a checksum the last piece counts,
  and a name becomes two (`Inventory.TextAroundAnElement`).
- A package with a file called `metadata` or `objects` at its top is accepted
  (`ValidatedPackages.ObstructedPackagesAreAccepted`), but cannot be described in PREMIS or cannot be restructured
  (`ValidatedPackages.ValidatedPackagesAreReadyIff`).
- The report of the manifest check can depend on the order in which Go reads a map. For a package, a manifest and hashes
  it does if and only if every file that is found and listed can be checked, and two entries of the manifest that get
  the path of one such file are checked with different results (`MapOrder.OrderDecidesIff`). For a manifest there are
  such a package and hashes if and only if the package is an AIP and two entries with different algorithms or hashes get
  the same path below `content` (`MapOrder.OrderCanDecideIff`). The parser makes such a manifest from a document with a
  folder called `..`, and there is an accepted package for which that document is reported as matching or as a mismatch,
  whichever the order (`CollidingPaths.OrderDecidesForADocument`, `CollidingPaths.AcceptedPackageHasTwoReports`). Two
  entries that differ in the identifier only never decide anything (`CollidingPaths.NamelessFilesNeverDecide`).
- The div of `metadata.xml` is missed when another div ended before it in the header div, because every end of a div takes
  down the flag for the header (`MetsTree.FlagsOfADocument`, `MetsTree.MetadataAfterAnotherDiv`).
- `validateStructure` returns no result when the walk fails, and its caller reports failures from that result all the
  same (`internal/activities/validate_structure.go:52-61`): the activity crashes exactly then
  (`StructureReport.Execute`).
- With two files of the same identifier, METS matching fills in only the last one, and reports success
  (`MetsMatch.Execute`).

In one place the code and its documentation disagree. Step 16 of `internal/dips/README.md:119-124` says that the
object key is cleared when the DIP is marked `deleted`, before the object is removed. The code removes the object
first and then clears the key (`internal/dips/workflows/create_dip.go:275-290`); the model follows the code.

## Model

| member | source | states |
|---|---|---|
| DipRow.DIP.Update | internal/dips/activities/update_dip.go:42-101 | The updater changes the fields of the record in place exactly as the row transition `Updated` says, and leaves all of them alone when it rejects the parameters. The lemmas below are about that transition. |
| DipRow.CompletedRecordsAreSettled | internal/dips/activities/update_dip.go:52-95 | Whatever sequence of updates and renewals follows, a failed or deleted record can at most lose its object key, and a stored one keeps its key and completion time, only ever has its expiry moved later or removed, and may only become deleted. |
| DipRow.CompletionIsWrittenOnce | internal/dips/activities/update_dip.go:52-89 | A record has a completion time exactly when it has completed, and no later update or renewal changes that time. |
| DipRow.CompletingTwiceIsCompletingOnce | internal/dips/activities/update_dip.go:52-89 | At-least-once delivery: repeating a committed stored or failed update at any later time, with anything in between and anything after, gives the same record as not repeating it. |
| DipRow.StartingTwiceMovesAtMostTheStart | internal/dips/activities/update_dip.go:52-89 | The same for the in-progress update, up to the start time, as long as all updates come from one workflow. |
| DipRow.RepeatedClearIsHarmlessIff | internal/dips/activities/update_dip.go:43-48 | Repeating a key removal is without effect in every continuation if and only if it was committed on a failed or deleted record, or on a stored one that has no expiry or no key. |
| DipRow.ClearingAgainAfterRenewals | internal/dips/activities/update_dip.go:43-48 | On every record, whatever its status, repeating a key removal after any number of renewals changes nothing in any continuation. |
| DipRow.KeptForGood | internal/dips/activities/update_dip.go:90-95 | A stored record without an expiry is never changed again by updates or renewals; one without a key never gets one. |
| DipRow.CommitMeans | internal/dips/persistence/ent/client/dip.go:158-182 | What the updater and the save filter together leave of a record, for every record and all parameters: a start and a failure take over texts that are not empty, a stored record gets its key and, with a retention, the later expiry, and a completed record changes only by expiring or by losing its key. |
| DipStore.Database.RequestDIP | internal/dips/persistence/ent/client/dip.go:22-120 | A request is answered with the newest usable record of its document, its expiry removed without a retention and otherwise moved to now plus the retention unless it is later already, or with a new queued record if there is none, also when the commit of a new record is reported as failed and the record is found afterwards. Nothing else in the table changes; refused requests change nothing; after a database error nothing has changed or the request was committed, and a reliable database refuses exactly the invalid requests. |
| DipStore.UsableMeans | internal/dips/persistence/ent/client/dip.go:43-62 | A record can answer a request if and only if it is of the document and queued, in progress, or stored, not expired and the cache is not ignored. |
| DipStore.Database.UpdateDIP | internal/dips/persistence/ent/client/dip.go:136-195 | An update commits the updater's outcome through the save filter (the expiry only moves later, texts are only written when not empty, an empty key clears). Unknown records and rejected updates change nothing; after a database error the record is as before or as committed. |
| DipStore.NeverTwoPendingGenerations | internal/dips/persistence/ent/client/dip.go:22-120 | Over every sequence of requests and updates, with or without the cache, a document never has two generations that are queued or in progress, and no record disappears or changes its document. |
| DipStore.RecordsMoveByUpdateAndRenewal | internal/dips/persistence/ent/client/dip.go:60-195 | Every record of every service run moves only by the updates and renewals that the lemmas about single records quantify over. |
| CreateDipSafety.InvAlways | internal/dips/workflows/create_dip.go:73-290 | The invariant relating record, bucket, object key and program counter holds in every state of every run, over all interleavings of retries, lost acknowledgements, lost sessions, renewals, time and cancellation. |
| CreateDipSafety.AcknowledgedObjectIsKept | internal/dips/workflows/create_dip.go:85-130 | Once the final stored update is acknowledged, the record is stored and its object is in the bucket under the recorded key until the record is deleted. |
| CreateDipSafety.DeletedOnlyWhenExpired | internal/dips/workflows/create_dip.go:244-273 | The one step in which a record becomes deleted is taken by the deletion request, finds an expiry that is set and not after the present time, and the object is still there. |
| CreateDipSafety.NeverDeletedBeforeAShownExpiry | internal/dips/persistence/persistence.go:31-33 | Between any two states of a run: an expiry that anyone has seen is only moved later or removed, and the record is deleted only after the expiry that was seen; never if none was. |
| CreateDipSafety.NoUntrackedObject | internal/dips/workflows/create_dip.go:90-122 | When the record has completed, an object in the bucket has its key in the record, also after uploads with an uncertain outcome and repeated sessions. |
| CreateDipSafety.KeyIsClearedOnlyAfterTheObject | internal/dips/workflows/create_dip.go:275-290 | A completed record loses its key only when it is failed or deleted and the object is no longer in the bucket. |
| CreateDipSafety.SuccessfulOutcome | internal/dips/workflows/create_dip.go:73-130 | If the workflow returns no error, then for ever after the record is stored without an expiry and has its object, or is deleted with neither object nor key. |
| CreateDipSafety.RequestsArePaidForByRenewals | internal/dips/workflows/create_dip.go:244-273 | In every run the retention loop has made at most two deletion requests more than there were renewals that changed the expiry. |
| CreateDipSafety.StoredObjectIsMissingOnlyUnacknowledged | internal/dips/workflows/create_dip.go:104-122 | A stored record can be without its object only if its final update was never acknowledged and the generation counts as failed. |
| CreateDipSafety.StoredObjectIsMissingIff | internal/dips/workflows/create_dip.go:104-122 | In every state of every run, a stored record is without its object if and only if an earlier removal by the deferred function took effect, acknowledged or not. |
| CreateDipSafety.StoredIsUndoneIff | internal/dips/workflows/create_dip.go:104-122 | The deferred function has set out to remove the object of a stored record if and only if a final stored update was reported as failed before; that update was then committed. |
| CreateDipSafety.UnacknowledgedStoredRecordLosesItsObject | internal/dips/workflows/create_dip.go:104-122 | A complete run in which a stored, unexpired record ends without its object, because a committed final update is reported as failed. |
| CreateDipRecord.EveryChangeOfTheRecord | internal/dips/workflows/create_dip.go:85-290 | In every run, the record changes in six ways only, each in the step of one activity or in a request, and these are its new values: started with the workflow's identifier, stored under its own key with the expiry that the configured retention period gives, failed with its error, deleted when expired, its key removed when the object is gone, or renewed. |
| CreateDipRecord.RestOfTheWorld | internal/dips/persistence/ent/client/dip.go:60-77 | What happens between the steps of the workflow: time passes, the workflow is cancelled, or a request renews the expiry as the database does. |
| CreateDipRecord.UndisturbedGeneration | internal/dips/workflows/create_dip.go:73-290 | For every configuration and fresh record there is a run without faults: without a retention period it ends with the record stored for good and the object in the bucket; with one, it waits until the period is over and ends with the record deleted and neither object nor key. |
| CreateDipRecord.CancelledGeneration | internal/dips/workflows/create_dip.go:85-128 | A run that is cancelled during the upload ends with the record failed, with its error, and with neither object nor key. |
| CreateDipRecord.DecisionMeans | internal/dips/workflows/create_dip.go:258-270 | After each deletion request: the object is removed of a deleted or failed record, the workflow is done with a record without an expiry, waits for one that lies ahead, and asks again at once otherwise; any other record is an error. |
| CreateDipRecord.CancelledIsNeverStored | internal/dips/workflows/create_dip.go:85-100 | In every run, a workflow that is cancelled before its final update never stores the generation and never succeeds. |
| CreateDipRecord.AlwaysWithinLimits | internal/dips/workflows/create_dip.go:580-629 | In every run an activity is attempted at most three times and a session at most five times. |
| CreateDipRecord.LimitsAreReached | internal/dips/workflows/create_dip.go:186-228 | And before these limits, a lost attempt and a lost session are followed by another, unless the workflow was cancelled. |
| CreateDipWorkflow.World.ExecuteActivity | internal/dips/workflows/create_dip.go:580-629 | An activity with retries, of which any attempt may take effect and lose its result, is a sequence of steps of the system, and the workflow goes on with the result it received. |
| CreateDipWorkflow.World.Generate | internal/dips/workflows/create_dip.go:161-228 | The look-ups and the session loop, with their early returns, end in the deferred function, which counts the generation as failed exactly when they returned an error or the workflow was cancelled. |
| CreateDipWorkflow.World.DeleteAfterRetention | internal/dips/workflows/create_dip.go:244-273 | The retention loop terminates when renewals are bounded, and ends in the final state that its return value says. |
| CreateDipWorkflow.World.Execute | internal/dips/workflows/create_dip.go:73-229 | The whole workflow is a run of the step system. On success the record is stored for good with its object, or deleted with neither object nor key; and when nothing is lost, fails or is cancelled, whatever is renewed, it succeeds. |
| ParseMetadata.Execute | internal/dips/activities/parse_metadata.go:45-136 | The whole activity, from the two documents to the two lists: unless it is cancelled, it succeeds exactly when the export can be decoded and every content identifier occurs in the METS files; and when it succeeds, it lists the export's files of the folders `content` and `header` with their paths, checksums and algorithms, and of a content file, the last with its identifier, the place of the first occurrence. |
| DeclaredFiles.PackageIsDeclared | internal/dips/activities/parse_metadata.go:45-190 | For every package in the expected form and all METS documents: the activity succeeds if and only if the identifier of every file that the streaming reader has below `content` is in the METS document of some AIP; then it declares exactly the files below `content` and below `header`, each once with its checksum and algorithm, and a content file whose identifier is its own comes from the first AIP that has it. |
| MetsHits.HitsOfDocument | internal/dips/activities/parse_metadata.go:138-190 | An identifier and a path are found in a METS document if and only if an outermost PREMIS object in it has an `objectIdentifier` of type `local` with that value and an original name that, without the placeholder of the transfer directory, is not empty and joined to the AIP's directory is that path. |
| PrintedExport.ExportUndoesPrinting | internal/dips/activities/parse_metadata.go:83-136 | Reading a printed tree of folders and files gives the files of each top folder with their identifiers, paths, checksums and algorithms, each folder's own files before those of its folders. |
| PrintedExport.InventoriesInOrder | internal/dips/activities/parse_metadata.go:102-119 | Of several inventories, the folders of the first come first. |
| PrintedExport.PrintedPackageIsExpected | internal/dips/activities/parse_metadata.go:83-136 | Every printed tree with proper names that differ in each folder is in the form that `DeclaredFiles.PackageIsDeclared` and `ReadersAgree.ReadersAgree` ask for. |
| Session.WorkingDirectory.Fetch | internal/amss/fetch_aip_file.go:42-80 | However many attempts fail and whatever they leave behind, a successful download is the file of the AIP and, when both checksum and algorithm are declared, has the declared hash; no other file changes; and without faults it succeeds exactly when that hash is right. |
| Session.WorkingDirectory.FetchValidMetadata | internal/dips/workflows/create_dip.go:461-570 | On success the metadata is the complete export of one single attempt, which completed and was valid; no mixture of attempts survives; three are tried at most, and without faults it succeeds exactly when one of the three completes and is valid, with the first such one. |
| Session.WorkingDirectory.Prepare | internal/dips/activities/prepare_dip.go:38-104 | On success the place of the metadata was free and now has what stood at the place of the export, and that place is empty; every header file with another destination is the copy of its schema with the declared hash. What stood at the place of the export is the export, unless a header file is declared for that very place, and then it is that schema. Without faults it succeeds exactly when each header file has its schema with the declared hash and none is declared for the place of the metadata. |
| Session.WorkingDirectory.FetchContent | internal/dips/workflows/create_dip.go:398-423 | On success every content file is at its place as it is in its AIP and with its declared hash; when files share a place, the last one is; without faults it succeeds exactly when all the hashes are right. |
| Session.WorkingDirectory.Assemble | internal/dips/workflows/create_dip.go:293-436 | From an empty working directory, a finished session leaves the declared header and content files and the metadata, and besides these at most the METS files, none of which is in the directory of the DIP: there, exactly the declared files are. What is declared is what the parser makes of one export, which completed and was valid, and of METS files of the AIPs. The metadata is that export, unless a header file is declared for the place of the export or a content file for that of the metadata; the contract says what is there then. Without faults, and with different AIPs, it succeeds exactly when one of three exports is good and everything that the first good one declares can be had as declared. |
| Session.DistinctPlacesAreIntact | internal/dips/workflows/create_dip.go:322-423 | When the declared places are distinct, every single declared header and content file is there intact, and the metadata is the exported one. |
| Session.FilesOfTheDip | internal/dips/workflows/create_dip.go:293-460 | With different places, by their paths below the DIP's directory: each content file has the bytes of its AIP, which have the declared hash if one is declared, each header file the bytes of the schema of its name, which have the declared hash, and `header/metadata.xml` the export. |
| Session.MetsOfTheAips | internal/dips/workflows/create_dip.go:325-375 | What is searched for an AIP is the METS file named after it, under its own identifier and directory. |
| Xml.Skip | internal/manifest/manifest.go:97-101 | The decoder's Skip passes over one balanced element and ends behind its end tag, or fails at the end of the input. |
| Xml.TextInOrder | internal/dips/activities/parse_metadata.go:83-93 | The text of an element is that of its chunks of characters, one after the other. |
| Xml.TextOfOne | internal/dips/activities/parse_metadata.go:83-93 | Only the chunks that stand directly in the element count. |
| Manifest.Parse | internal/manifest/manifest.go:49-135 | The loop with its stack and its path changed in place computes, on every token stream, complete or cut off, the manifest or the error of the transition function that the next lemmas are about. |
| Manifest.ParsingReadsTheDocument | internal/manifest/manifest.go:49-135 | On the tokens of every document the streaming parser gives what a recursion over the document tree gives, without a stack. |
| Manifest.StreamOfNode | internal/manifest/manifest.go:62-134 | One node anywhere in a stream: the parser does to path, file and map what the tree recursion does, leaves the stack as it was, and goes on or stops at the same point. |
| Manifest.EndTagsFindTheirElement | internal/manifest/manifest.go:94-116 | On every document, complete or cut off anywhere, every end tag that the loop gets to finds a stack that is not empty and has its own element on top; the loop asserts that at the access. |
| Manifest.IrrelevantElementsDoNotMatter | internal/manifest/manifest.go:72-101 | Removing all irrelevant elements, at any depth and even if they contain folders, files and names, does not change the result. |
| Inventory.TextAroundAnElement | internal/manifest/manifest.go:94-129 | Text on both sides of an irrelevant element, and the same text in one piece, are read alike where text is ignored; for a checksum or an algorithm if and only if the first piece is empty or no file is open; and for a name in two parts never. |
| Manifest.PathsAreCleaned | internal/manifest/manifest.go:110-122 | Whatever tokens are read, every path in the map is one that the path package has cleaned. |
| Inventory.ReadPackage | internal/manifest/manifest.go:62-134 | For a package in the expected form the result is its schema version and the map from the path of each file, names joined from the top, to its identifier, algorithm and checksum, in whatever order a file's parts come. |
| Inventory.SplitNameIsTwoNames | internal/manifest/manifest.go:117-129 | At any place, a file whose name a comment splits in two is entered below a folder of the first part, and the first part stays in the path. |
| Inventory.LateNameComesTooLate | internal/manifest/manifest.go:117-129 | At any place, a file that comes before its folder's name is entered outside the folder. |
| InventoryPrinter.ReadingUndoesPrinting | internal/manifest/manifest.go:49-135 | Parsing the printed form of any tree of folders and files with proper names gives back the files of the tree. |
| ReadersAgree.FirstAndLastAttr | internal/manifest/manifest.go:82-100 | Of several attributes with a local name, the streaming reader takes the first and the recursive reader the last. |
| ReadersAgree.FolderIsRearranged | internal/dips/activities/parse_metadata.go:122-136 | The recursive reader lists, for every folder, exactly the files that the document order listing has below it, as often and with the same path, identifier, algorithm and checksum. |
| ReadersAgree.DistinctNamesGiveDistinctPaths | internal/dips/activities/parse_metadata.go:122-136 | If the names within each folder differ, all paths of the inventory differ. |
| ReadersAgree.ReadersAgree | internal/dips/activities/parse_metadata.go:95-136 | The list of a top-level folder and the part of the streaming reader's map below that folder are the same files with the same path, identifier, algorithm and checksum, one list entry per map entry. |
| MetsMatch.StreamHitsOfDocument | internal/dips/activities/parse_metadata.go:138-190 | The occurrences that the token loop of a METS file meets are those of the PREMIS objects of the document tree, in document order, at any depth. |
| MetsMatch.Search.EarlyExit | internal/dips/activities/parse_metadata.go:166-184 | Once every file has been matched, reading on would change neither a file nor the map: the early exits do not change the answer. |
| MetsMatch.Search.TryMatch | internal/dips/activities/parse_metadata.go:172-180 | Matching one occurrence keeps: the map holds the files without an occurrence so far, and every other file has the source of the first occurrence of its identifier. |
| MetsMatch.Search.MatchObject | internal/dips/activities/parse_metadata.go:170-184 | The same for all identifiers of an object, with the exit as soon as the map is empty. |
| MetsMatch.Search.MatchMETS | internal/dips/activities/parse_metadata.go:138-190 | The same for a METS file; it fails exactly when the file cannot be read to its end and files remain unmatched. When the activity is cancelled on the way, a first part of the occurrences has been processed, and files remain unmatched. |
| MetsMatch.TableHoldsTheLast | internal/dips/activities/parse_metadata.go:55-58 | The map from identifiers to files has every identifier, and holds the last file of each. |
| MetsMatch.MissingMeans | internal/dips/activities/parse_metadata.go:69-79 | A file is listed as missing, with its identifier and path, if and only if no METS file has its identifier. |
| MetsMatch.ListMissing | internal/dips/activities/parse_metadata.go:68-79 | The list of missing files has exactly the files whose identifier does not occur, in content order. |
| MetsMatch.Execute | internal/dips/activities/parse_metadata.go:45-82 | Unless it is cancelled, it succeeds if and only if every content identifier occurs in some AIP; the last file of each identifier gets the first occurrence in AIP and document order; otherwise it reports exactly the missing ones, or fails when a METS file cannot be read. A cancelled search has done the same with a first part of the occurrences. |
| Premis.IndentKeeps | internal/activities/add_premis_objects.go:72-76 | Indenting, which every write does, changes neither objects, events and agents nor their order. |
| Premis.ViewsWithEvent | internal/premis/premis.go:217-273 | A new event comes after all other events and leaves objects and agents alone, wherever it is inserted. |
| Premis.EventKeepsOrderIff | internal/premis/premis.go:217-273 | Inserting an event keeps the order objects, events, agents if and only if the document has an event or an object, or has no agent before the index that the element count gives. |
| Premis.EventAmongAgents | internal/premis/premis.go:248-273 | The document that shows it: with two agents and neither objects nor events, the event lands between them. |
| Premis.LinkKeepsOrder | internal/premis/premis.go:275-283 | Linking an event to an object changes nothing but that object and keeps the order. |
| PremisDocument.RecordingIsConsistent | internal/premis/premis.go:157-173 | Adding an event with a fresh identifier and linking it to one object keeps order and the one-to-one matching of links and events, and adds the event to the story of that object alone. |
| PremisDocument.OneEventPerLink | internal/premis/premis.go:275-283 | In a matched document every object has as many events as links. |
| PremisDocument.Document.FindObject | internal/activities/add_premis_validation_event.go:87-112 | An object is found exactly when one has the name, and the one found has it. |
| PremisDocument.Document.AddObjectIfNeeded | internal/premis/premis.go:186-215 | An object is added at the end unless one of that name is there, and then the document is as before. |
| PremisDocument.Document.AddAgentIfNeeded | internal/premis/premis.go:298-371 | The same for agents, compared in all their fields. |
| PremisDocument.Document.AddEvent | internal/premis/premis.go:217-273 | The two searches for the last event and the last object insert the event where `WithEvent` has it, about which the order lemmas are. |
| PremisDocument.Document.AppendEventForEachObject | internal/premis/premis.go:144-173 | Every object's story grows by one event of its own, order and matching are kept, agents stay as they are. |
| PremisRun.OriginalNameIsInjective | internal/premis/premis.go:399-401 | Different content files have different original names (semantic unit 1.6 of the PREMIS Data Dictionary 3.0). |
| PremisRun.RecordChecks | internal/activities/add_premis_validation_event.go:87-124 | In whatever order the map of formats is read, exactly the objects of the files that the validator handles get one event each; it fails exactly when one of them has no object; the agent is wanted exactly when there was one. |
| PremisRun.AppendObjects | internal/activities/add_premis_objects.go:54-70 | Objects are appended for exactly the files whose name is new, in file order, without links. |
| PremisRun.ObjectsKeepOrderIff | internal/premis/premis.go:186-215 | Appending objects keeps the order if and only if there are none to append or the document has neither events nor agents. |
| PremisRun.FullStories | internal/workflows/preprocessing.go:848-982 | The five steps that add events, composed: each object ends with the 4 events of a SIP or the 3 of an AIP in the order of the steps, plus the validator's exactly when its format is handled. |
| PremisRun.Activities.AddObjects | internal/activities/add_premis_objects.go:33-79 | The file that is read, extended and written again has its old children and the new objects; a failure leaves the old file, a broken one, or the new one. |
| PremisRun.Activities.AddEvents | internal/activities/add_premis_event.go:28-60 | From a consistent file to a consistent file in which every object has one more event. |
| PremisRun.Activities.AddValidationEvents | internal/activities/add_premis_validation_event.go:54-143 | From a consistent file to a consistent file in which exactly the handled files have one more event, and the agent is there once if there was any. |
| PremisRun.Activities.AddAgent | internal/activities/add_premis_agent.go:24-44 | The agent is in the file once, everything else as before. |
| PremisRun.Activities.WritePremisFile | internal/workflows/preprocessing.go:848-982 | However a run ends, a completely written file is in order and its links and events match one to one. If it succeeds, the objects are the content files by original name, each with its full story, the agents are exactly those involved, each once, and every event names an agent that is there (semantic units 1.14, 2.1 and 3.1); on a reliable disk it succeeds. |
| PremisStories.FinishedFile | internal/workflows/preprocessing.go:848-990 | What such a run leaves, element by element: each content file has an object with its path in the bag, whose links lead, in order, to events with the texts of the checks and the identifiers of their agents; there are as many objects as files, and the agents are Enduro and the validator if it handled a file. |
| PremisStories.LinksTell | internal/premis/premis.go:275-283 | Each link of an object leads to the event that is told in its place. |
| PremisRun.ReplaysAddNothing | internal/activities/add_premis_objects.go:54-70 | Replaying the add-objects step on a file that has the objects adds none, and replaying add-agent adds none. |
| Paths.JoinPath | internal/sip/sip.go:75-117 | Joining names to a clean path appends them, as every layout does. |
| Paths.DirPath | internal/activities/validate_structure.go:99-105 | The directory of a clean path drops the last name, and that of a single name is ".". |
| Paths.BasePath | internal/pips/pips.go:43-49 | The base of a clean path is its last name. |
| Paths.EdgeCases | internal/sip/sip.go:119-121 | What joining, cleaning and taking apart give for empty paths and the root. |
| Paths.PathIsInjective | internal/premis/premis.go:399-401 | Different lists of names are different paths. |
| FileSystem.MovedAt | internal/activities/transform_sip.go:37-84 | A move to a free target takes every entry below the source to its new place unchanged, makes no other, and loses none. |
| FileSystem.TrackMove | internal/activities/transform_sip.go:37-84 | After one more move, every entry of the first tree is where the sequence of moves takes it, at its own place, and nothing else exists but new directories. |
| FileSystem.Disk.MoveEntry | internal/activities/transform_sip.go:37-84 | A move renames to a free target or does nothing; on a reliable disk it fails only when it is not possible. |
| Sip.LayoutOf | internal/sip/sip.go:45-117 | The paths of all four layouts, computed by joining, are the places of the content, the metadata, the schema, the manifest, the additional files and the top-level directories in the package. |
| Layouts.AipLayout | internal/sip/sip.go:75-110 | For every AIP, the paths of its parts. |
| Layouts.SipLayout | internal/sip/sip.go:91-117 | For every SIP, the paths of its parts. |
| Layouts.PipLayout | internal/pips/pips.go:24-33 | The path of the manifest in the restructured package, for each type. |
| Layouts.Conversions | internal/pips/pips.go:43-56 | The converted path of every path of names, by its last name and by whether it starts with `content`. |
| Layouts.ContentGoesTo | internal/activities/transform_sip.go:31-97 | Restructuring takes everything in the content directory of each type to `objects/<name>/content`. |
| Layouts.MetadataGoesTo | internal/activities/transform_sip.go:31-97 | And the metadata file to `objects/<name>/header`. |
| Layouts.AdditionalGoesTo | internal/activities/transform_sip.go:31-97 | And the two files in `additional` of an AIP to `metadata`. |
| Layouts.OthersStay | internal/activities/transform_sip.go:31-97 | What is not below `content`, `header` or `additional` stays where it is. |
| Layouts.RestIsDropped | internal/activities/transform_sip.go:84-94 | Other files in `additional` of an AIP go nowhere. |
| TransformSip.MovesReachTarget | internal/activities/transform_sip.go:31-84 | The two or four moves, one after the other, take every entry to the destination that is defined for it by cases, although later moves act on what earlier ones moved. |
| TransformSip.OldDirectoriesHoldTheRest | internal/activities/transform_sip.go:86-92 | What the moves leave under the old top-level directories, which are then removed, is exactly what has no destination. |
| TransformSip.Execute | internal/activities/transform_sip.go:31-97 | On success every entry with a destination is there with its bytes, no two at one place, and nothing else but new directories; it succeeds only if the sources are there and the targets free, and then always on a reliable disk; whatever happens, at any move, removal or change of modes, everything outside the old directories, such as metadata/premis.xml, is untouched. |
| DescribedPackages.ContentFiles | internal/premis/premis.go:373-397 | The walk over the content directory lists exactly the files below it, each once. |
| DescribedPackages.DescribeAndRestructure | internal/workflows/preprocessing.go:463-500 | From an accepted package to the restructured one: if premis.xml is written and the package restructured, each content file, whatever its name, stands with its bytes at the path that is the original name of exactly one object without the payload directory, and that object has the file's full story; every object is of a content file, and no other file is in the content directory below `objects`. If either step fails, everything outside the old directories is untouched; and on a reliable disk both succeed exactly when nothing at the top of the package is called `metadata` or `objects`. |
| PathAgreement.ManifestPathInPackage | internal/activities/verify_manifest.go:76-97 | The manifest path of a content file, prefixed for AIPs, is where restructuring takes the file from. |
| PathAgreement.PathsAgree | internal/pips/pips.go:43-56 | For every content file of every package type, restructuring takes the file from where its manifest path is in the package to where the converted path leads, and the converted path in the payload directory (section 2.1.2 of RFC 8493) is its PREMIS original name, if and only if the file does not have one of the two special names. |
| PathAgreement.ConversionCollidesIff | internal/pips/pips.go:43-56 | Two different content files get the same converted path if and only if both have the same special name. |
| PathAgreement.ManifestIsFoundIff | internal/pips/pips.go:24-33 | After restructuring, the manifest is where the PIP says it is for all package types except born-digital AIPs. |
| IdentifierFile.ManifestPathsAgreeIff | internal/pips/pips.go:43-56 | For every path of names that a manifest can list, of every package type, restructuring takes the file to where conversion says, or drops it where conversion says nothing, if and only if the path is plain content, the metadata file, or in one of the few other cases of a condition on the names of the path. |
| IdentifierFile.IdentifiersAreDistinctIff | internal/activities/write_identifier_file.go:78-90 | The converted list has different paths if and only if no two files of the manifest share a special name. |
| IdentifierFile.IdentifiersPointToFiles | internal/activities/write_identifier_file.go:78-90 | Whatever else the manifest lists: a content file without a special name has exactly one entry in the sorted list, no other entry has its path, and the path leads to where restructuring has put the file. |
| IdentifierFile.ContentIsIdentifiedIff | internal/activities/write_identifier_file.go:78-90 | For any cleaned paths: the sorted list has an entry that leads to a content file without a special name if and only if the file's own manifest path is listed, and never two. |
| IdentifierFile.MetadataIsIdentified | internal/activities/write_identifier_file.go:78-90 | The metadata file, under the path by which the manifest lists it, has an entry that leads to where restructuring has put it. |
| WriteIdentifiers.Write | internal/activities/write_identifier_file.go:44-72 | The activity reads the manifest from where the restructured package's form says, and fails exactly when it cannot be read, lists nothing, or has an entry without a file; otherwise it writes the converted list of that manifest. |
| WriteIdentifiers.WhichManifest | internal/activities/write_identifier_file.go:44-53 | After any restructuring, that is the manifest of the package as it was before, except for born-digital AIPs, for which it is the old metadata file. |
| WriteIdentifiers.ContentIsIdentifiedIffListed | internal/activities/write_identifier_file.go:44-90 | For every package type and every manifest: an entry of the written list leads to a content file without a special name if and only if the manifest that was read lists the file under its own path; then there is one such entry, with the identifier from the manifest. |
| VerifiedPackages.VerifiedFilesAreIdentified | internal/activities/write_identifier_file.go:44-90 | For every package that the structure validator accepts, whose manifest verifies, and that has been restructured: except for born-digital AIPs, the manifest that is read is the verified one, each content file without a special name is identified where it is, by one entry only and with the identifier that the manifest has for it, and so is the metadata file of an AIP. For born-digital AIPs the manifest is the old one. For all types, a content file is identified if and only if the manifest that is read lists it; and wherever an entry leads to from a file of the validated package, that file stands after restructuring with the bytes it had. |
| BornDigitalGap.ContentFileIsNotIdentified | internal/activities/write_identifier_file.go:44-53 | A born-digital AIP, with its tree, its two documents and a disk that has it, that is accepted, verified and ready to be restructured; however it is restructured, the list made from the manifest that is then read has no entry for its content file. |
| VerifiedPackages.PackagesHaveNamePaths | internal/manifest/manifest.go:102-121 | The paths that the parser enters for a package in the expected form are made of names, as `VerifiedPackages.VerifiedFilesAreIdentified` asks of AIPs. |
| Identifiers.FromManifest | internal/identifiers/identifiers.go:32-54 | The list has exactly the files of the manifest, sorted, one entry each, with the path and the identifier that the manifest has; it is an error exactly for an empty manifest, and a crash exactly when an entry has no file. |
| Identifiers.OrderDoesNotMatter | internal/identifiers/identifiers.go:28-54 | The list does not depend on the order in which the map is read. |
| Identifiers.PipIdentifiers | internal/activities/write_identifier_file.go:78-90 | The converted entries, without those that have no path in the PIP, sorted. |
| Sorting.LeqIsDictionaryOrder | internal/activities/verify_manifest.go:141-166 | The order is that of a dictionary: a text comes before those that it starts and those with a greater character where they first differ. |
| Sorting.SortedIsUnique | internal/activities/verify_manifest.go:141-166 | What is sorted by a key that tells its elements apart is determined by its elements. |
| ValidatedPackages.ValidatedPackagesAreReadyIff | internal/activities/add_premis_objects.go:43-47 | On a disk that has a package as the structure validator accepted it, the directory of premis.xml can be made and the package then be restructured if and only if nothing at its top is called metadata or objects. |
| ValidatedPackages.ObstructedPackagesAreAccepted | internal/activities/validate_structure.go:107-112 | For every package type and either name there is a package with a file of that name at its top that the structure validator accepts. |
| PackageTree.CountIsKids | internal/activities/validate_structure.go:98-105 | In a walk, the entries counted for a directory are as many as it has in the tree. |
| PackageTree.WalkShowsNodes | internal/activities/validate_structure.go:70-92 | The walk shows exactly the files and directories of the tree, each at its place. |
| PackageTree.WalkIsPreOrder | internal/activities/validate_structure.go:70-105 | No entry is shown before a directory that it is in, and none twice. |
| ValidateStructure.ValidationResult.CountChild | internal/activities/validate_structure.go:98-105 | One more child for the first directory with the path, and no other. |
| ValidateStructure.ValidationResult.Visit | internal/activities/validate_structure.go:71-138 | The function that the walk calls changes the fields as the visit function says, which the next lemma is about. |
| ValidateStructure.VisitedIsTally | internal/activities/validate_structure.go:71-138 | Visiting the entries of any walk one after the other gives the flags, counts and lists that are defined by counting over the whole walk. |
| StructureReport.ReportFailures | internal/activities/validate_structure.go:149-219 | The loops report what the tally of the walk asks for, in order, and only that the package is empty if it is. |
| StructureReport.NoFailuresIff | internal/activities/validate_structure.go:149-219 | Nothing is reported if and only if the tree has the declared structure: not empty, required entries present, only allowed characters, no empty directory, no other top-level directory, at most one dossier if digitized. |
| StructureRules.AcceptedIff | internal/activities/validate_structure.go:71-230 | The declared structure, rule by rule: no empty directory, names of letters, digits and `-_.()` only, the required files of each package type where it has them, no directory at the top but its two, and at most one dossier if it is digitized. |
| StructureRules.MissingAreNamed | internal/activities/validate_structure.go:170-219 | Of a package that is not empty, the report names exactly the required parts that are not where this type of package has them, and more than one dossier exactly if it is digitized and has them. |
| StructureReport.Execute | internal/activities/validate_structure.go:52-145 | On a readable tree of any shape, the report is empty exactly for the declared structure, and of a package that is not empty it names exactly the empty directories, the invalid names and the unexpected directories. If the walk fails, and only then, the activity crashes on the result that is not there. |
| MetsPaths.Parse | internal/cantons/parse.go:32-125 | The loop with its nine variables is two independent automata over the tokens, and fails exactly when the input breaks off. |
| MetsPaths.HalvesAreIndependent | internal/cantons/parse.go:49-114 | The result depends only on the two subsequences of file-section and structure-map tokens, not on which section comes first or how they mix. |
| MetsPaths.PathsMean | internal/cantons/parse.go:60-74 | The map has a path for an identifier exactly when that path was the last one recorded inside a file with that identifier in a metadata or original group, and never for the empty identifier. |
| MetsPaths.MetadataDivMeans | internal/cantons/parse.go:75-112 | The flag is up exactly when a metadata.xml div was opened in the physical structure map after a header div with no div closing in between, and none has closed since. |
| MetsPaths.MetadataPointerMeans | internal/cantons/parse.go:92-112 | The identifier kept is that of the last pointer inside such a div. |
| MetsPaths.FoundMeans | internal/cantons/parse.go:49-125 | A path is returned for either metadata file exactly when it is the last one recorded for the identifier of the last pointer in its div. |
| MetsTree.FlagsOfADocument | internal/cantons/parse.go:49-114 | At every point of a METS document in which no file group, file or structure map is inside another of its kind: the flags for the file group and the physical structure map are up, and the current file is that of an identifier, exactly when such elements are open around the point; and the flags for the header and the two metadata files are up exactly when such a div is open in the map, for `metadata.xml` in an open header div, and no div has ended since that div or the header div started. |
| MetsTree.MetadataAfterAnotherDiv | internal/cantons/parse.go:32-125 | A METS document, with any identifiers, paths and groups of the two kinds, in which the other file is found, and `metadata.xml` is found when its div comes first in the header div and is not found when another div comes before it. |
| VerifyManifest.PrefixedFiles | internal/activities/verify_manifest.go:85-97 | In whatever order the map is read, the new map has the prefixed path of every entry, with a file that some entry of that path has. |
| VerifyManifest.OrderMattersIff | internal/activities/verify_manifest.go:85-97 | Which map the prefix loop makes depends on the order if and only if the package is an AIP and two entries with different files get the same prefixed path. |
| MapOrder.OrderDecidesIff | internal/activities/verify_manifest.go:41-97 | For every package, manifest and hashes: some run reports and another one ends differently, or reports something else, if and only if every file that is found and listed has an entry it can be checked against, and two entries get the path of one such file and are checked with different results; for two reports, neither of them a failure. |
| MapOrder.OrderCanDecideIff | internal/activities/verify_manifest.go:41-97 | For every manifest: there are a package and hashes for which that happens if and only if the package is an AIP and two entries with different algorithm or hash, or one of them without a file, get the same path of names below `content`; for two reports, both with a file. |
| CollidingPaths.UpwardsIsRead | internal/manifest/manifest.go:102-121 | From a document with a folder `content` and a folder `..`, the parser enters `content/a` and `../content/content/a`, with any two hashes. |
| CollidingPaths.OrderDecidesForADocument | internal/activities/verify_manifest.go:41-97 | For every AIP with the file `content/content/a`, two runs of the check on that document report differently when the file has the one hash and not the other. |
| CollidingPaths.AcceptedPackageHasTwoReports | internal/activities/verify_manifest.go:41-97 | There is such a package, of either AIP type, that the structure validator accepts. |
| CollidingPaths.NamelessFilesNeverDecide | internal/activities/verify_manifest.go:41-97 | For a document with two nameless files, which get the same path, no run that reports could have ended differently, whatever the package, the hashes and the order. |
| VerifyManifest.NamePathsDoNotCollide | internal/activities/verify_manifest.go:85-97 | With paths that are made of names, as the parser makes them from a package in the expected form, it never does. |
| VerifyManifest.SipFiles | internal/activities/verify_manifest.go:101-137 | The set of paths that the walk collects, without the metadata file of a SIP and only the content of an AIP; an error if the content directory of an AIP is missing. |
| VerifyManifest.ScopeOfWalk | internal/activities/verify_manifest.go:101-137 | A path is in that set exactly when the tree has a file there that is in scope for the package type. |
| VerifyManifest.VerifyChecksums | internal/activities/verify_manifest.go:173-208 | Fails exactly when a file that is there cannot be hashed or has no manifest entry behind its pointer; otherwise the messages are those of exactly the files with a different hash, sorted. |
| VerifyManifest.Difference | internal/activities/verify_manifest.go:141-166 | One message for each element of the difference of the two sets, in the order of the paths. |
| VerifyManifest.ListsAreDetermined | internal/activities/verify_manifest.go:141-208 | Two lists of the same findings, made by reading maps and sets in different orders, are the same. |
| VerifyManifest.NamePathsAreReportedOnce | internal/activities/verify_manifest.go:41-73 | For a manifest whose paths are made of names, of any two runs on the same input, in whatever order they read maps and sets, both report or neither does, and the reports are the same. |
| VerifyManifest.Execute | internal/activities/verify_manifest.go:41-97 | From the manifest file to the report: the activity fails exactly when the manifest cannot be opened or parsed, or the files cannot be listed; it crashes when the parser does or an entry without a file is compared, and fails when a file cannot be hashed; in all other cases it reports exactly the missing files, the unexpected files and the mismatches. |
| VerifyFindings.FindingsMean | internal/activities/verify_manifest.go:41-208 | The lists of a report name exactly the listed files that the package does not have where it is looked at, the files that are not listed, and the listed ones whose hash is not the declared one in lower case, each in its words; and an unsupported version. |
| VerifyFindings.LowerMeans | internal/activities/verify_manifest.go:193 | Lower case changes the letters from A to Z and nothing else. |
| VerifyManifest.NoFindingsIff | internal/activities/verify_manifest.go:41-73 | There are no findings if and only if the schema version is supported, the manifest's paths are exactly the files of the package in scope, and every file hashes to its lower-cased declared value. |

## Left out

- ReadersAgree.ReadersAgree: assumes at most one attribute with the local name `id` per file element, because of several
  the streaming reader takes the first and the recursive reader the last; assumes a package in the expected form and
  different names within each folder.
- Inventory.ReadPackage: assumes names in a single text chunk and before the contents of their folder; the parser
  takes every chunk of a name for a name of its own.
- Session.WorkingDirectory.Assemble: archiving and uploading follow later and are part of `CreateDip`.
- VerifiedPackages.VerifiedFilesAreIdentified: for AIPs assumes that the verified manifest's paths are made of names,
  because a path such as `../content/x` verifies and is then not converted.
- WriteIdentifiers.Write: a crash of the parser is an error here, and the list stands for the JSON file.
- DipStore.Database.UpdateDIP: does not model that MySQL rounds times to its own precision when it stores them.
- CreateDipWorkflow.World.DeleteAfterRetention: bounds the renewals of one record by a number that is fixed but
  arbitrary, because without any bound the loop need not end.
- MetsTree.FlagsOfADocument: assumes that no file group, file or structure map is inside another of its kind; of other
  documents only what `MetsPaths` says of any tokens holds.
- DescribedPackages.DescribeAndRestructure: the document is not printed, so premis.xml has any bytes on the disk.
- The row that a failed start removes again (`DeleteDIP`), and the deduplication of workflow starts.
- Activity attempts that the workflow has given up on: they have no effect after their result was reported.
- Hashes are an uninterpreted function, identifiers are never issued twice, times of events are not kept.
- The quoting of names in the XPath searches of the PREMIS file; objects are compared by their name.
- Element pointers of the PREMIS tree: an object is the k-th object of the document.
- Moves across devices, which copy and then remove: a move that fails has changed nothing.
- Symbolic links, file modes, and the lower-casing of characters outside ASCII.
- The quoting of file names in messages and the exact texts of errors.
- Temporal, the XML libraries, the HTTP clients, generated code, configuration, the polling loops of APIS and ACTApro,
  the validators for names, schemas and file formats, and the bookkeeping of the preprocessing outcome.
