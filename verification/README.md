# Verified models of the UCF release and composition cores

UCF keeps its guarantees in a handful of small algorithms: the flattening of use cases along `extends`, the
create-only publication of reports and release evidence, the checks at the boundary to source archives and Git
objects, the tree manifests behind every copied fixture, the canonical benchmark report, and the choice of quality
gates. This project models them in Dafny and proves what each is for.

- **Use-case composition** (`Composition`, `CompositionWalk`, `CompositionLaws`, `CompositionDetails`). `ResolveExtends`
  is the recursive method with its shared, appended-to name list. It is proved equal to a function, the outcome of that
  function is decided by the walk along parent references alone, and the partial merge is shown to be associative, so
  that a chain may be cut anywhere and any ancestor may be replaced by its flattened form.
- **Atomic publication** (`AtomicPublish`, `ReleaseEvidence`, `ReleaseOrder`). State machines over a directory, the
  files behind its names and any number of runs. Every system call is a step, a run may be killed between any two,
  every fallible call may fail, and writes may be short. The theorems hold of every finite behaviour.
- **Archives and Git objects** (`BoundedReader`, `PosixPath`, `ArchiveInspection`, `ArchiveDetails`, `ByteText`, `Utf8`,
  `GitRecords`, `GitBlobs`). A reader that never delivers more than its limit, the one-pass inspector that makes the
  batch check redundant, both joined over one stream (`SdistStream`), the record parsers and their inverse printer, and
  the `cat-file --batch` client.
- **Trees** (`FileTree`, `TreeManifest`, `SourceManifest`, `CopyContract`). Explicit-stack traversals against
  recursive definitions; the visit of a source tree reads it step by step while it may change, and the copy that uses
  it twice on the source and once on the destination is exact or leaves nothing behind.
- **Benchmark reports** (`CanonicalJson`, `CanonicalText`, `BenchmarkComponents`, `BenchmarkRuntime`,
  `BenchmarkOverhead`, `BenchmarkDetails`, `StableDigests`). One accepted text per value, compiler and validator
  agreeing in both directions, and digests that ignore exactly what differs from run to run.
- **Gate selection** (`QualityGates`, `GateTable`). A loop with an early return that is still a function of the set of
  changed files.

`Wrappers`, `Bytes`, `TextOrder`, `Affix` and `SdistLimits` hold what the others share; `TextDetails` and the modules
called details, text and table state the names, limits and shapes that the other results rest on value by value. Loops
and objects that change state in the source are methods and classes here, each proved against a function or predicate;
the lemmas are about those.

## Where the code and its description differ

The model follows the code.

- `specs/actions/resolve-uc-extends.yaml` says that `extends_chain` runs from root to child; the code returns it from
  child to root, which is the same only for a use case without a parent (`ChainIsFromLeaf`). It also asks for
  requirements and invariants merged without duplicates; the loops compare a child with its parent only. The flattened
  lists have no duplicate exactly when no level repeats a key that is new at that level (`FlattenDistinctIff`), and a
  child that uses one step id twice passes the clash check (`FlattenedIdsUniqueIff`); `DuplicatesSurvive` is an
  instance of both. Merging also drops `assumed_preconditions` and `terminal`, which only a use case without a parent
  keeps.
- A use case that is not itself registered but bears the name of one of its ancestors is refused as circular although
  its walk ends; `CircularWithoutCoherence` is the exact condition and `UnregisteredNamesake` an instance.
- `_safe_member_path(".")` is accepted with no parts, so the archive loop's `path.parts[0]` raises `IndexError`
  instead of a release error (`NoPathParts` in the model). That happens exactly when the size of the archive is allowed
  and the loop reaches a file or directory called "." (`InspectSdistContents`); an archive of "." made from inside the
  directory is one (`DotArchive`).
- `parse_report_json` given text, not bytes, validates the object it read and only then compares after
  `text.encode("ascii")`. For a report that passes the validation that raises `UnicodeEncodeError` instead of a report
  error exactly when the text is not ASCII (`NotAscii` in the model, `EncodingFailsIff`), which takes a string or a key
  with such a character; every valid report with one has such a text, its dump without escapes (`UnescapedDump`,
  `EncodingCanFailIff`). The Python version in the identities may be any non-empty text, so valid reports with one
  exist. `UnescapedLetter` is the shape of such a text. Given bytes it never happens (`BytesNeverFail`).
- The Git record parsers decode the mode and the object name strictly, so a record that passes every earlier check and
  has a byte above 127 in one of them raises `UnicodeDecodeError` (`NotAscii`, exactly then: `DecodingFailsIff`; an
  input: `NonAsciiMode`).
- With no repetitions `min` of an empty list raises `ValueError`, exactly when the first phase has no samples
  (`EmptySamples` in `RuntimePhaseReports` and `EmptySamplesIff`). The callers insist on three repetitions.
- A failing exit with the evidence in place happens not only when the directory could not be synced, the case the code
  announces, but also when a descriptor fails to close after that. `LoneRunFailStop` states both, and
  `FailingExitWithEvidence` has a run for each.
- The branch of `affected_gates` that names `tools/package_contract.py` and `tools/quality_gates.py` is never
  decisive, since an earlier branch takes both (`InnerToolNames`).

## Model

| member | source | states |
|---|---|---|
| CompositionWalk.OutcomeDecided | src/ucf/composition.py:34-80 | with unique names, circular exactly when the parent walk never ends, not-found exactly when it reaches a missing or foreign target, clash exactly when it ends with two levels sharing a step id, success otherwise |
| CompositionWalk.OutcomeByWalk | src/ucf/composition.py:34-130 | the outcome for every registry, and the chain of a success: duplicate-free names from leaf to root |
| CompositionWalk.DescentFollowsWalk | src/ucf/composition.py:55-71 | from any point of the walk, the code's check of names already in the list finds a repeat, a break or the root exactly as the walk does |
| CompositionWalk.RepeatsIffEndless | src/ucf/composition.py:55-59 | with unique names, a name comes up twice exactly when the walk has no end |
| CompositionWalk.EndsExclusive | src/ucf/composition.py:34-80 | a walk has at most one of the four ends |
| CompositionWalk.CircularWithoutCoherence | src/ucf/composition.py:37-59 | without registration of the use case itself, the exact condition for a circular refusal |
| CompositionWalk.ResolveIsDescentThenMerge | src/ucf/composition.py:63-130 | the interleaved recursion equals a descent followed by merging from the root down |
| CompositionWalk.FlattenDefined | src/ucf/composition.py:73-80 | pairwise checks between a child and its flattened parent pass exactly when no two levels share a step id |
| Composition.ResolveExtends | src/ucf/composition.py:23-130 | the method terminates on every registry, returns what the specification returns, and says what is in the caller's list afterwards |
| Composition.AppendNew | src/ucf/composition.py:84-110 | the append loops add exactly the child's entries whose key the parent lacks, in order |
| Composition.Register | src/ucf/parser/registry.py:59-79 | a second spec of one kind and name is refused; otherwise the new spec is found under its key, nothing else is added or changed, and every spec stays under its own key |
| CompositionLaws.MergeAssociative | src/ucf/composition.py:73-128 | both groupings of three levels are undefined together and equal where defined |
| CompositionLaws.MergeByKeyAssociative | src/ucf/composition.py:84-110 | keyed list merging is associative |
| CompositionLaws.MergeKeepsParent | src/ucf/composition.py:84-110 | merged keys are the union, and parent entries keep their places |
| CompositionLaws.MergeDistinctIff | src/ucf/composition.py:84-110 | the exact condition under which one append loop leaves no duplicate key |
| CompositionLaws.FlattenDistinctIff | src/ucf/composition.py:84-110 | each of the four flattened lists has no duplicate key exactly when no level repeats a key that is new at that level |
| CompositionLaws.DuplicatesSurvive | src/ucf/composition.py:73-128 | a child that repeats its own requirement, invariant and step id is resolved and keeps them all |
| CompositionLaws.FlattenSplits | src/ucf/composition.py:63-128 | flattening agrees wherever the chain of levels is cut |
| CompositionLaws.FlattenSteps | src/ucf/composition.py:112-113 | steps, alternative flows and concurrency are the root-to-leaf concatenation of all levels |
| CompositionLaws.FlattenChildWins | src/ucf/composition.py:119-120 | the level nearest the leaf decides the trigger and each entry of the event map |
| CompositionLaws.AncestorsComeFirst | src/ucf/composition.py:84-110 | the lists of every ancestor's own flattening are prefixes of the final lists |
| CompositionLaws.FlattenKeys | src/ucf/composition.py:84-110 | keys of requires, invariants, pre- and postconditions are the union over the chain |
| CompositionLaws.FlattenedIdsUniqueIff | src/ucf/composition.py:73-82 | flattened step ids are unique exactly when those of each level are |
| CompositionLaws.FlattenedContents | src/ucf/composition.py:34-130 | a success returns levels, chain, inherited ids and lists as all the laws above say, in terms of the walk |
| CompositionLaws.ResolveByLevels | src/ucf/composition.py:34-130 | a walk that ends with distinct names resolves to the merge of its levels |
| CompositionLaws.ReplaceAncestor | src/ucf/composition.py:63-130 | putting an ancestor's flattened form in the registry leaves the flattened use case unchanged |
| CompositionLaws.RegisteredIsDecided | src/ucf/composition.py:34-80 | for a registered use case of a registry filled by `register`, the four outcomes are the four ends of its walk |
| CompositionLaws.ChainIsFromLeaf | src/ucf/composition.py:61-71 | the returned chain is the names from leaf to root, and from root to leaf only without a parent |
| CompositionLaws.UnregisteredNamesake | src/ucf/composition.py:55-59 | a use case whose walk ends is refused as circular because it bears its grandparent's name |
| CompositionDetails.KeyLeads | src/ucf/composition.py:39-40 | a reference leads to the use case stored under its key, with `$ref:` before it or without |
| CompositionDetails.KeyMisleads | src/ucf/composition.py:42-53 | a key that is missing or holds a spec of another kind ends in the refusal for a missing parent |
| CompositionDetails.SingularLeads | src/ucf/parser/registry.py:83-102 | each of the six singular kinds stands for its plural when nothing is stored under the singular |
| CompositionDetails.SingularUseCaseLeads | src/ucf/parser/registry.py:83-102 | a reference by `usecase/` leads to the use case of that name, with `$ref:` before it or without |
| CompositionDetails.RegisteredUnderName | src/ucf/parser/registry.py:59-79 | a use case is registered under `use-cases/` and its name |
| CompositionDetails.ClashHasSharedId | src/ucf/composition.py:73-80 | for every registry, a refusal for clashing steps means that two levels of the walk have steps with equal ids |
| CompositionDetails.ClashIffSharedId | src/ucf/composition.py:73-80 | with unique names it happens exactly when the walk ends and has two such levels |
| CompositionDetails.FlattenedHolds | src/ucf/composition.py:84-110 | a flattened use case requires, binds, presupposes and promises exactly what some level does, an inline invariant under `invariants/` and its name |
| AtomicPublish.NeverPartial | tools/rel001_benchmark.py:1481-1549 | at every moment of every behaviour the destination is absent, as it was, or holds every byte of one run |
| AtomicPublish.DestinationStable | tools/rel001_benchmark.py:1481-1549 | once present, the destination stays the same file with the same bytes |
| AtomicPublish.AtMostOneSucceeds | tools/rel001_benchmark.py:1481-1549 | at most one run succeeds |
| AtomicPublish.NoTemporaryLeft | tools/rel001_benchmark.py:1536-1549 | when all runs have ended and none was killed, no temporary name remains |
| AtomicPublish.SomeRunSucceeds | tools/rel001_benchmark.py:1481-1549 | refusals are justified: without faults, one of the runs at an absent destination succeeds |
| AtomicPublish.SuccessIsSynced | tools/rel001_benchmark.py:1481-1549 | a run that succeeded saw the destination absent, synced the complete temporary file, linked it while the name was free, removed the temporary name and synced the directory, in this order |
| ReleaseEvidence.SuccessIsJustified | tools/release_check.py:2954-3007 | exit 0 with evidence means one commit read at the start, rechecked and read again at the end, clean tracked files after each reading, the local and then the hosted checks passed in between, and after all that exactly this run's bytes at the path |
| ReleaseOrder.ExitPassedChecks | tools/release_check.py:2954-3007 | exit 0 of any run but an inventory run, with evidence or without, has passed the local checks, and after them the hosted ones unless it is distribution-only |
| ReleaseOrder.InventoryRunWrites | tools/release_check.py:2959-2967 | exit 0 of an inventory run has written the inventory and had no evidence to publish |
| ReleaseOrder.SuccessIsSynced | tools/release_check.py:2862-2905 | exit 0 with evidence means that the staged file was synced, then linked or found equal to a file already there, then the directory synced and everything closed |
| ReleaseOrder.InvalidationSeen | tools/release_check.py:2689-2709 | a run with evidence that reads its options has seen the path absent before: nothing was there, or it removed what was there and synced the directory |
| ReleaseEvidence.LoneRunFailStop | tools/release_check.py:2862-2905 | a failing exit after invalidation leaves the path absent except exactly when a sync or close failed after linking; success shows the run's bytes |
| ReleaseEvidence.FailingExitWithEvidence | tools/release_check.py:2862-2905 | for each of the two exceptions a whole run that ends so |
| ReleaseEvidence.NeverPartial | tools/release_check.py:2819-2905 | with any number of runs the path is absent, as it was, or complete |
| ReleaseEvidence.PublisherSeesOwnBytes | tools/release_check.py:2712-2800 | once nobody invalidates, a publisher succeeds only with its own bytes visible, and they stay |
| ReleaseEvidence.SuccessfulPublishersAgree | tools/release_check.py:2862-2905 | publishers that all succeed published equal bytes |
| BoundedReader.AnyCalls | tools/release_check.py:241-265 | over any calls with any sizes: at most limit + 1 bytes pulled, at most limit delivered, a prefix of the stream, and no success after the limit was passed |
| BoundedReader.ByteLimitReader.Read | tools/release_check.py:248-265 | one call, tied to the reader's whole state |
| BoundedReader.ByteLimitReader.Drain | tools/release_check.py:980-981 | the drain loop terminates; success means the whole stream was delivered and fits the limit |
| ArchiveInspection.InspectSdistContents | tools/release_check.py:886-1003 | an archive is accepted exactly when its size is allowed, every member passes and the required members are there; then the numbers, the maximum among them, the manifest and the metadata are those of the members; the uncaught IndexError occurs exactly when the member "." is reached; the PKG-INFO count never fails |
| ArchiveInspection.InspectMembers | tools/release_check.py:895-981 | the loop accepts exactly the acceptable member sequences, its sets, counters and maps describe them, and it stops at the member without parts exactly when it reaches one |
| SdistStream.InspectSdist | tools/release_check.py:886-1003 | read through the bounded reader with any reads and drained, an undamaged archive is accepted exactly when the whole stream is within its limit and its members are acceptable; at most one byte beyond the limit is ever pulled |
| ArchiveInspection.CheckMember | tools/release_check.py:913-961 | which error a member gets, condition by condition, and that any other member is acceptable |
| ArchiveInspection.DotArchive | tools/release_check.py:926-933 | an archive that starts with the directory "." reaches it |
| ArchiveInspection.BatchCheckIsRedundant | tools/release_check.py:681-748 | for what the loop accepted, the batch validator can refuse only for a missing required member |
| ArchiveInspection.PkgInfoIsUnique | tools/release_check.py:983-1003 | after that there is exactly one PKG-INFO, and member counts and sizes add up |
| ArchiveInspection.ValidateSdistMemberPaths | tools/release_check.py:681-748 | the batch validator accepts exactly what its separate conditions allow |
| ArchiveInspection.RelativeIsSafe | tools/release_check.py:651-678 | the name relative to the archive root is again a safe path, with the remaining parts |
| ArchiveInspection.SumValues | tools/release_check.py:700-748 | the sum over a dictionary does not depend on its order |
| ArchiveDetails.PathOkIff | tools/release_check.py:651-678 | a file's path is approved exactly when it is safe, starts at one of the allowed roots, goes through none of the forbidden directories and is not a generated file, all by name |
| ArchiveDetails.BatchAcceptsIff | tools/release_check.py:681-748 | what the batch validator accepts, exactly: those paths, without repetition, the sizes of just these files, the limits in numbers and the required members by name |
| ArchiveDetails.MemberOkIff | tools/release_check.py:651-678 | a member is acceptable exactly when it is no link, its name is the root directory or an approved name below it, and its size is allowed |
| ArchiveDetails.LoopAcceptsIff | tools/release_check.py:913-971 | the loop accepts exactly the sequences of at most 2,000 such members with distinct names and at most 25 MiB in files |
| ArchiveDetails.AcceptedNames | tools/release_check.py:651-678 | every file of an accepted archive has an approved name below the root |
| ArchiveDetails.NodeModulesRefused | tools/release_check.py:660-674 | a file below `node_modules` in a top-level directory is not approved |
| PosixPath.SafePathsAreJoins | tools/release_check.py:631-648 | accepted names are exactly the joined lists of valid parts within the length limit, and "." |
| PosixPath.JoinInjective | tools/release_check.py:631-648 | different lists of names have different paths |
| PosixPath.DotIsSafe | tools/release_check.py:631-648 | "." is accepted with no parts |
| PosixPath.OnlyDotHasNoParts | tools/release_check.py:631-648 | no other accepted name has no parts |
| TextDetails.SafeIff | tools/release_check.py:631-648 | the same with the forbidden names and characters and the limit of 4,096 bytes written out |
| TextDetails.JoinMeans | tools/release_check.py:631-648 | joining puts one slash between names |
| Utf8.DecodeEncode | tools/release_check.py:1210-1217 | decoding undoes encoding |
| Utf8.EncodeDecode | tools/release_check.py:1210-1217 | accepted bytes are the encoding of their text |
| TextDetails.CharacterBits | tools/release_check.py:1210-1217 | the bytes of a character by their number, lead and tail bytes, as RFC 3629 lays them out |
| TextDetails.CharacterBytes | tools/release_check.py:1210-1217 | the bytes of the first and last characters of each length |
| GitRecords.ParseEntries | tools/release_check.py:1220-1275 | the record loop computes the specified entries or error, for either listing |
| GitRecords.RoundTrip | tools/release_check.py:1220-1275 | printing any entries with distinct safe paths and parsing gives them back in order, TAB and LF in paths included |
| GitRecords.ParsersAgree | tools/release_check.py:1220-1275 | both parsers read the same entries from the two listings of one content |
| GitRecords.AcceptedIsPrintable | tools/release_check.py:1220-1275 | every accepted payload has distinct safe paths, and its entries survive printing in either form |
| GitRecords.DecodingFailsIff | tools/release_check.py:1220-1275 | the uncaught decoding error occurs exactly when, after accepted records, one passes every earlier check and has a mode or object name that is not ASCII |
| GitRecords.NonAsciiMode | tools/release_check.py:1224-1240 | any index record with such a mode is an input for it |
| GitRecords.ObjectIdIff | tools/release_check.py:218-218 | object names are 40 or 64 lower-case hexadecimal digits |
| GitRecords.RecordsInFull | tools/release_check.py:1220-1275 | one record of each listing, byte by byte, for any object name of either length and any safe path, is parsed into its entry |
| TextDetails.SpacesAre | tools/release_check.py:1226-1226 | the bytes that separate the fields of a header |
| GitBlobs.Fetch | tools/release_check.py:1304-1341 | one exchange succeeds exactly within the limits and leaves nothing of the response unread |
| GitBlobs.ReadGitBlobs | tools/release_check.py:1278-1349 | all blobs are returned exactly when every size and the running total are within limits and the process ends well |
| GitBlobs.DistinctPathsExact | tools/release_check.py:1278-1349 | with distinct paths every path has its stored bytes and nothing else is returned |
| GitBlobs.ResponseInFull | tools/release_check.py:1304-1341 | what the server answers, byte by byte, for a blob and for a missing object |
| GitBlobs.LimitsInNumbers | tools/release_check.py:1319-1328 | the limits: 5 MiB for a blob, 25 MiB for all |
| GitBlobs.TotalOfMore | tools/release_check.py:1324-1324 | the running total adds the size of each blob |
| TextDetails.DigitsMean | tools/release_check.py:1314-1318 | the value of a size field, digit by digit, underscores between digits allowed |
| TextDetails.SignsMean | tools/release_check.py:1314-1318 | a sign may come before the digits |
| TextDetails.DecimalMeans | tools/release_check.py:1304-1341 | the decimal digits of a size have no leading zero and that value |
| TreeManifest.TreeManifest | tools/package_contract.py:2372-2408 | the stack loop terminates and equals the recursive sorted preorder; every entry has the path, kind, mode, size, digest and target of its node, and every node has an entry |
| TreeManifest.ManifestDeterminesTree | tools/package_contract.py:2372-2408 | trees with one manifest are equal, for an injective digest |
| FileTree.RelativeInjective | tools/package_contract.py:2375-2385 | relative paths tell nodes apart |
| FileTree.RelativeInWords | tools/package_contract.py:2375-2385 | the relative path of the root is ".", any other joins the names with slashes |
| TextDetails.LessMeans | tools/package_contract.py:2372-2408 | the order of sorted names: the first character that differs decides, and a prefix comes first |
| SourceManifest.SourceManifest | tools/go_stdlib_adapter_contract.py:327-391 | over a tree that may change at every step the traversal terminates, and a result lists every expected file once, in order, each seen as a regular file of that size; if nothing changed and no call failed, it succeeds exactly when there are no links or special files, every directory is allowed and the file set is the expected one, and the result is that tree's manifest |
| SourceManifest.ReadRegularFile | tools/go_stdlib_adapter_contract.py:492-535 | a payload has the size of a regular file seen at the path, and is that file's content and mode if it did not change |
| SourceManifest.ManifestUnique | tools/go_stdlib_adapter_contract.py:457-465 | an accepted tree has one manifest, whatever the visiting order |
| SourceManifest.AcceptsInWords | tools/go_stdlib_adapter_contract.py:327-391 | accepted are exactly the directories in which every node outside the ignored top-level directories is an allowed directory or an expected file under its joined name, and every expected file is there |
| SourceManifest.SameManifestSameFiles | tools/go_stdlib_adapter_contract.py:457-465 | one manifest, one content of every source file |
| CopyContract.CopyTree | tools/go_stdlib_adapter_contract.py:394-454 | a returned manifest was observed of the source before and again after the copying, and is the copy's; every directory of a returned copy has mode 0755; a failure leaves the destination as it was; an existing destination is refused; no write reaches the source; and if the source shows one accepted tree throughout, the parent stays a directory and no call fails, a copy with every file of the source is returned |
| CopyContract.CopyFiles | tools/go_stdlib_adapter_contract.py:415-454 | the body of the copy under a source that changes between any two steps, and its success when the source keeps still |
| CopyContract.ObserveSource | tools/go_stdlib_adapter_contract.py:414-443 | the manifest of the source is taken from the states the source went through meanwhile; it is exact if they show one tree |
| CopyContract.ReadSource | tools/go_stdlib_adapter_contract.py:417-429 | the bytes copied are read below the source, and are its file's if it keeps still |
| CopyContract.WriteBelow | tools/go_stdlib_adapter_contract.py:430-441 | one file is written below the directories made for it, or a call failed, something on the way is no directory, or the file is there already; directory modes are kept |
| CopyContract.DirModesAt | tools/go_stdlib_adapter_contract.py:416-437 | every directory of a copy, at whatever path, has mode 0755 |
| CopyContract.ReadyToCopy | tools/go_stdlib_adapter_contract.py:430-441 | over an accepted source the directories of the next file can be made and the file is not there yet |
| CopyContract.AllCopied | tools/go_stdlib_adapter_contract.py:443-450 | the finished copy is accepted, holds every source file with its mode and bytes, and has the source's manifest and no other |
| CopyContract.FileSystem.WriteNewRegularFile | tools/go_stdlib_adapter_contract.py:538-555 | under every schedule of short writes a written file equals its payload |
| CopyContract.SetChanges | tools/go_stdlib_adapter_contract.py:394-454 | a write puts its node, leaves the directories on the way directories, and changes nothing elsewhere |
| CopyContract.RemoveChanges | tools/go_stdlib_adapter_contract.py:448-454 | removal takes the destination, leaves the directories on the way, and changes nothing elsewhere |
| CanonicalJson.LoadsDump | tools/rel001_benchmark.py:287-342 | reading undoes printing at every nesting depth, with escapes and without |
| CanonicalJson.LoadsCanonical | tools/rel001_benchmark.py:287-342 | the canonical text is read back as its value, and accepted when that is an object the validation accepts |
| CanonicalJson.OneAcceptedText | tools/rel001_benchmark.py:316-342 | a text is accepted with a value exactly when the value is an object, the validation accepts it, and the text is its canonical text |
| CanonicalJson.CanonicalInjective | tools/rel001_benchmark.py:287-297 | two values never share a canonical text |
| CanonicalJson.OneAcceptedEncoding | tools/rel001_benchmark.py:316-342 | the same for bytes, which are the canonical text in ASCII |
| CanonicalJson.EncodingFailsIff | tools/rel001_benchmark.py:333-342 | from text the encoding fails exactly for an object that the validation accepts in a text that is not ASCII, and then some string or key is not ASCII |
| CanonicalJson.BytesNeverFail | tools/rel001_benchmark.py:319-323 | from bytes the failing encoding is never reached |
| CanonicalJson.UnescapedDump | tools/rel001_benchmark.py:333-342 | every accepted object with a string or key that is not ASCII has a text for which the encoding fails |
| CanonicalJson.EncodingCanFailIff | tools/rel001_benchmark.py:333-342 | some text makes it fail exactly when the validation accepts an object that is not ASCII |
| CanonicalJson.UnescapedLetter | tools/rel001_benchmark.py:333-342 | under a validation that accepts an object with the one field `python_version`, an unescaped letter in it makes the encoding fail |
| CanonicalJson.CanonicalIsOneAsciiLine | tools/rel001_benchmark.py:287-297 | canonical text is one line of visible ASCII |
| CanonicalText.ObjectText | tools/rel001_benchmark.py:287-297 | objects are printed with their keys in order, a comma and a colon without spaces |
| CanonicalText.ArrayText | tools/rel001_benchmark.py:287-297 | arrays are printed in order, with a comma without space |
| CanonicalText.NoSpaceOutsideStrings | tools/rel001_benchmark.py:287-297 | at any depth, a canonical text has a space only where a string or a key has |
| CanonicalText.ScalarTexts | tools/rel001_benchmark.py:287-297 | the texts of null, the booleans, some numbers and the empty collections |
| CanonicalText.ShortEscapes | tools/rel001_benchmark.py:287-297 | the short escapes, character by character |
| CanonicalText.UnicodeEscapes | tools/rel001_benchmark.py:287-297 | escapes by number, with a surrogate pair above U+FFFF |
| CanonicalText.PlainTextIsItself | tools/rel001_benchmark.py:287-297 | visible characters other than quote and backslash stand for themselves |
| CanonicalText.SmallTexts | tools/rel001_benchmark.py:287-297 | two objects in full |
| CanonicalJson.CloseAccepts | tools/rel001_benchmark.py:369-379 | exactly the objects without a repeated field are accepted, with exactly their fields |
| CanonicalJson.ClosedObject | tools/rel001_benchmark.py:369-379 | the loop builds that dictionary or reports the duplicate |
| BenchmarkComponents.AcceptedIsDerived | tools/rel001_benchmark.py:646-817 | exactly the components derived from sound measurements are accepted |
| BenchmarkComponents.CompiledSum | tools/rel001_benchmark.py:2499-2546 | each compiled entry is the sum the validator expects |
| BenchmarkComponents.TotalsAccepted | tools/rel001_benchmark.py:820-878 | over accepted components exactly the compiled totals are accepted |
| BenchmarkComponents.TotalsBalance | tools/rel001_benchmark.py:2499-2546 | candidates, ambiguity resolutions and uncovered interfaces balance false candidates, materializations and debt in every sum |
| BenchmarkComponents.AcceptedTotalsBalance | tools/rel001_benchmark.py:820-878 | accepted totals obey the balance, and approvals, verified claims and stale evidence are zero |
| BenchmarkDetails.AcceptedInWords | tools/rel001_benchmark.py:646-817 | an accepted component has its lane's name and transports, digests of 64 lower-case digits, and outcomes that fit its debt, all written out |
| BenchmarkDetails.PromotionIff | tools/rel001_benchmark.py:646-817 | with otherwise sound fields, claims are accepted exactly when nothing is mapped, verified or stale, they match what was materialized and fresh tests exist; any others are a claim promotion |
| BenchmarkDetails.ReviewIff | tools/rel001_benchmark.py:646-817 | the same for the review actions |
| BenchmarkDetails.RatchetIff | tools/rel001_benchmark.py:646-817 | the same for the ratchet |
| BenchmarkDetails.TransportsIff | tools/rel001_benchmark.py:646-817 | the same for the transports |
| BenchmarkRuntime.RuntimePhaseReports | tools/rel001_benchmark.py:2549-2582 | samples compile exactly when complete and positive, into summaries in the order of sorted identities; the uncaught error of an empty list occurs exactly with no repetitions and no samples of the first identity |
| BenchmarkRuntime.ValidateRuntime | tools/rel001_benchmark.py:881-953 | the loop gives the verdict of the specification, with its error |
| BenchmarkRuntime.EmptySamplesIff | tools/rel001_benchmark.py:919-932 | the uncaught error of an empty list in the validator, exactly |
| BenchmarkRuntime.CompiledIsAccepted | tools/rel001_benchmark.py:881-953 | a compiled section is accepted exactly when measured over the expected matrix |
| BenchmarkRuntime.AcceptedIsCompiled | tools/rel001_benchmark.py:881-953 | an accepted section is what its own samples compile to |
| BenchmarkRuntime.SortIdentitiesSorts | tools/rel001_benchmark.py:2561-2561 | the sorted identities are those given, strictly ordered by ecosystem and phase |
| BenchmarkRuntime.MedianSplits | tools/rel001_benchmark.py:2577-2579 | at least half of the samples lie on either side of the median |
| BenchmarkRuntime.MedianBetween | tools/rel001_benchmark.py:2577-2579 | the median lies between minimum and maximum |
| BenchmarkRuntime.SummaryByContents | tools/rel001_benchmark.py:2577-2579 | the summary does not depend on the order of the samples |
| BenchmarkDetails.MedianMeans | tools/rel001_benchmark.py:2577-2579 | over any ascending listing of the samples, the median is the middle one, or the mean of the middle two rounded down, and the extremes are the ends |
| BenchmarkDetails.MatrixIs | tools/rel001_benchmark.py:234-245 | the expected identities are those of four lanes and five phases, by name |
| BenchmarkOverhead.CompileOverhead | tools/rel001_benchmark.py:1748-1802 | the loop builds the section of the specification, unless the source bytes disagree with the totals; each total is the sum over the four lanes, the policy and the lifecycle, written out, and so are the source bytes and the ratios |
| BenchmarkOverhead.ValidateOverhead | tools/rel001_benchmark.py:956-1130 | the loop gives the verdict of the specification, with its error; what it accepts over four components has those sums and ratios, written out |
| BenchmarkOverhead.CompiledIsAccepted | tools/rel001_benchmark.py:956-1130 | a compiled section is accepted exactly when no count is negative and every allocated sum is positive |
| BenchmarkOverhead.AcceptedIsCompiled | tools/rel001_benchmark.py:956-1130 | an accepted section is what its own accounting compiles to |
| StableDigests.StableLifecycleDigest | tools/rel001_benchmark.py:2607-2659 | the method overwrites the nested digests as specified, and refuses exactly the chains with a missing key |
| StableDigests.SameRunSameDigest | tools/rel001_benchmark.py:2594-2659 | under any hash, runs of one chain have one digest |
| StableDigests.DigestIffSameRun | tools/rel001_benchmark.py:2594-2659 | under an injective hash, equal digests mean equal chains outside result ids, times and the digests bound to them |
| StableDigests.ProjectionIdempotent | tools/rel001_benchmark.py:2669-2688 | projecting a successor twice changes nothing more |
| StableDigests.BlindToRunEvidence | tools/rel001_benchmark.py:2669-2688 | evidence and its provenance records inserted anywhere are invisible exactly when no surviving entity bears an identity they name |
| StableDigests.SuccessorRefused | tools/rel001_benchmark.py:2669-2688 | a successor is refused exactly when a key that is looked up is missing or an identity cannot be in a set; otherwise its digest is that of its projection |
| StableDigests.SuccessorDigestIff | tools/rel001_benchmark.py:2669-2688 | two accepted successors have one digest exactly when their projected entities and their other fields agree |
| StableDigests.RunEvidenceSameDigest | tools/rel001_benchmark.py:2669-2688 | under any hash, evidence of a run with new provenance records inserted anywhere leaves the digest |
| StableDigests.SurvivorsAre | tools/rel001_benchmark.py:2669-2688 | the entities of the projection are those whose kind is not `verification_evidence` and whose identity is no target of such an entity |
| StableDigests.OneRunInvisible | tools/rel001_benchmark.py:2669-2688 | one such entity and the record it names, inserted anywhere, leave nothing behind |
| StableDigests.SuccessorDigestIs | tools/rel001_benchmark.py:2683-2688 | the object whose canonical text is hashed for a successor |
| StableDigests.LifecycleDigestIs | tools/rel001_benchmark.py:2607-2659 | the lifecycle digest as nested hashes of objects written out |
| StableDigests.StableBindingIs | tools/rel001_benchmark.py:2624-2631 | a binding in it: its result projected, and the digest of that put in its validation |
| StableDigests.StableResultIs | tools/rel001_benchmark.py:2594-2604 | a result without `id` and `executed_at`, under its version |
| StableDigests.PutReferenceIs | tools/rel001_benchmark.py:2639-2653 | a reference with the value of its digest overwritten |
| QualityGates.AffectedGates | tools/quality_gates.py:188-237 | the loop with its early return selects, in profile order, the gates that some changed file needs |
| QualityGates.RunsIffNeeded | tools/quality_gates.py:188-237 | a gate runs exactly when some changed file needs it, gate by gate |
| QualityGates.AffectedJoins | tools/quality_gates.py:188-237 | two change lists together call for the ordered union of what each calls for |
| QualityGates.AffectedMonotone | tools/quality_gates.py:188-237 | more changes never drop a gate |
| QualityGates.AffectedByContents | tools/quality_gates.py:188-237 | neither order nor repetition of changes matters |
| QualityGates.AffectedIsSubsequence | tools/quality_gates.py:188-237 | the result keeps the profile's order without repetition, and is empty only when nothing changed |
| QualityGates.EverythingRuns | tools/quality_gates.py:234-235 | one unknown path makes every gate run |
| GateTable.NormalMeans | tools/quality_gates.py:195-195 | a leading `./` is dropped and backslashes become slashes |
| GateTable.WebFile | tools/quality_gates.py:203-204 | a file below `web/` calls for the web gates |
| GateTable.LegalFile | tools/quality_gates.py:205-206 | the four legal and top-level documents call for the packaging contract |
| GateTable.AdapterFile | tools/quality_gates.py:196-208 | a file below `adapters/` or `tests/fixtures/` calls for tests, lint, benchmark and packaging |
| GateTable.BenchmarkToolFile | tools/quality_gates.py:154-210 | so does each of the ten benchmark tools, by name |
| GateTable.PackagingToolFile | tools/quality_gates.py:154-210 | each other packaging input, by name, calls for tests, lint and packaging |
| GateTable.ProductFile | tools/quality_gates.py:196-221 | a file below `src/ucf/` calls for every gate but those of the web |
| GateTable.OtherToolFile | tools/quality_gates.py:211-216 | any other file below `tools/` calls for tests, lint and spec validation |
| GateTable.OtherTestFile | tools/quality_gates.py:211-214 | any other file below `tests/` calls for tests and lint |
| GateTable.PythonFile | tools/quality_gates.py:211-214 | so does a `.py` file outside these directories |
| GateTable.SpecFile | tools/quality_gates.py:222-223 | another file below `specs/` or `examples/specs/` calls for tests and spec validation |
| GateTable.BuildFile | tools/quality_gates.py:196-225 | the two build files call for tests, lint, benchmark and packaging |
| GateTable.ReportFile | tools/quality_gates.py:196-202 | the benchmark report calls for the benchmark |
| GateTable.ProseFile | tools/quality_gates.py:226-233 | other documentation calls for the automation tests only |
| GateTable.UnknownFile | tools/quality_gates.py:234-235 | anything else makes all eight gates run, whatever other files changed |

## Left out

- Composition: specs other than use cases carry only kind and name; metadata is a name; triggers are optional strings
  and events a map; step bodies are opaque values.
- Publication: the interleavings are state machines over steps, not methods; `unlink` in the `finally` clause of
  `publish_report` is assumed to succeed, and creation of parent directories and the checks of the parent's kind are
  not part of the model.
- Release evidence: the link count of a file counts the evidence path only; hosted checks, builds, audits and the
  order of their errors are one step that passes or refuses; the comparison of revision and tree at the end is one
  reading of a commit that determines its tree.
- Archives: gzip and tar decoding (an archive is its member sequence), the parsing of metadata after the PKG-INFO
  count, wheels, and the choice of archive files. The chunk loop of `_read_tar_member` is modelled as the bytes
  available for a member. The inspection's local variables are fields of one record.
  In `SdistStream` the members are a function of the stream, and reading and inspecting do not alternate, so which of
  two errors is met first is not modelled there.
- Git: the two record parsers are one method with a parameter for the two fields in which they differ; the process is
  an object store with an output buffer, and its pipes neither block nor fail.
- Trees: the umask. A directory listing and the reading of a file's bytes are one step each. Device and inode numbers
  and time stamps have no place in a node: the last look at a file may or may not notice a change of anything but its
  size, and bytes read from a file that is no longer what was opened are arbitrary.
- CopyContract.CopyTree: assumes that nobody else writes at the destination and that removal succeeds; what others do
  while the copier only looks is chosen before it looks, which allows every sequence of their steps.
- Benchmark reports: records are typed, so unknown fields and wrong JSON types of single fields are not modelled;
  identities, limitations, the lifecycle section, path leaks, and the compilation of components from lane evidence.
- CanonicalJson: the validation of the report is a predicate on values; floats, lone surrogates, the interpreter's
  limits on digits and nesting, and Python's equality of `True` and `1`.
- BenchmarkRuntime: the mean of the two middle samples is exact integer arithmetic, where the source goes through a float.
- StableDigests: the hash is any function on texts; the trust digest and the conversion of model objects to JSON.
- QualityGates: discovery of changed files and the execution of gates.
- Schema generators, smoke drivers, the web application, and the engines behind `ucf.ratchet`, `ucf.onboarding`,
  `ucf.inventory`, `ucf.ir` and the adapter protocol.
