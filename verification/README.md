# Verified model of Styrn's protocols and stores

This project models, in Dafny 4.11, the parts of Styrn whose correctness depends on what
happens over many calls: creating a worker's directories so that a crash never makes a
directory look like somebody else's, an RPC session between a controller and a worker, the
files that several processes keep consistent, and the checkers that decide which paths and
directory chains are trusted.

`dafny verify dfyconfig.toml` checks everything.

## How the source is modelled

**Worker directories** (`WorkerFs`, `Permissions`, `WorkerTree`, `WorkerDisk`,
`WorkerEntries`, `WorkerEvidence`, `WorkerNode`, `WorkerRetirement`, `WorkerAction`,
`WorkerRoot`, `WorkerLayout`, `WorkerRerun`, `WorkerUndisturbed`, `WorkerRuns`). The filesystem is a map from inodes to nodes with an
owner, a mode and contents; a directory binds names to inodes, and inode numbers may be
reused. `Disk` holds it in a field, and every system call is a method that may fail, or may
find the process dead, before it takes effect. The methods above it follow the Rust
functions call by call, so a contract about every outcome is a contract about every crash
point. Runs are sequences of such calls. A slot names one node: the directory where its
candidate and its markers are staged, its destination directory and its name there. The four
names of a slot determine its phase: nothing, staged, staged and marked, published, or
settled; `Adopted` is a directory the protocol did not create, and `Corrupt` is any other
combination. The SHA-256 digest in reserved names is a constructor, hence injective;
`ProvenanceRecord` proves that the hashed bytes and the record bytes are injective
encodings. What the tests on owners, modes, ACLs and stored records amount to is stated
apart from these tests: in terms of who may read, write, enter or replace what
(`Permissions`), and of the fields of the record in the stored file (`WorkerEvidence`).

Five consequences of the code are stated as such.

- A root whose creation was interrupted is refused for every pair of effective and worker
  uid (`WorkerRoot.ResumeStagedRoot`), although a type for resuming by a distinct creator
  exists.
- Cleanup after a failed root creation restores the parent exactly when no candidate of a
  child had been made, because candidates stand beside the staged root and cleanup only
  looks inside it (`WorkerRoot.CleanupRestoresIff`); `WorkerRoot.OrphanExample` is such a
  state.
- What is left then stands in the way of a later root that happens to get the inode number
  of the removed one; without such leftovers an open layout is created unless something
  fails (`WorkerLayout.CreateLayout`).
- Support directories that the superuser creates for another user belong to that user
  afterwards, and then they are no acceptable ancestors for the superuser: the call that
  retires the evidence of one node refuses them (`WorkerAction.UndisturbedLifecycle`), and
  the layout cannot be created again (`WorkerUndisturbed.ReopensIff`).
- A call that fails makes an inspected node unknowable, except that a healthy directory with
  a retired marker is reported as a conflict when it cannot be opened at that moment
  (`WorkerAction.InspectLocated`).

**RPC** (`FrameStream`, `FrameValue`, `MachineUuid`, `FrameCodec`, `FrameSize`, `JsonText`,
`FrameRules`, `RpcId`, `RpcProtocol`, `RpcClient`, `RpcServer`, `RpcSession`,
`PublicKeyLine`, `ExecArgv`, `ExecCapture`, `Integers`). Bytes are cut into lines by a reader whose source delivers any
pieces. A line is a JSON text as a tree whose objects may repeat members; the parser refuses
repetition (section 4 of RFC 8259) and the decoder is a function on values, where null
counts as absent and a diagnostic may be an object or the sequence of its fields; which
values it accepts is stated against the printed form of a frame. The client is a class that
faces a peer that may send anything, and each of its calls is stated by the one attempt to
read that it makes. What the server writes is stated by the position of each input, apart
from the reactions that compute it. The session is a transition system of
that client's requests, the server's reactions and two streams between them.

**Stores** (`MachineIdentity`, `ManifestStore`, `Inventory`, `HostFiles`, `KnownHostsText`,
`HostCommands`).
Processes read without the lock, lock, reread and atomically replace files, and may stop
between any two of these steps; the kernel drops the lock of a process that dies.

**Checkers** (`AncestorChain`, `TextSplit`, `NativePath`, `SleepPosture`). String and mode
tests are shown equal to statements about components, owners and permissions.

## What is assumed

- Nothing outside Styrn changes the worker directories while the lock is held. Checks that
  compare two observations made under the lock can then only fail through an error.
- The calls of a run follow one another. The lock on the anchor directory sees to that for
  layouts with the same anchor; calls for layouts with different anchors are not excluded by
  the code, and are assumed not to meet in the same directories at the same time.
- Directories form a tree when a run begins (`WorkerTree.Tree`): no cycle, one name for each
  directory, and no entry without an inode. Every call keeps it that way
  (`WorkerRuns.RunsStayTrees`).
- Two calls that name the same destination name the same staging directory
  (`WorkerRuns.Respects`).
- The worker's name fits the 255 bytes of a hello, its handlers return data other than null,
  and a key line is judged by its first two fields, which is all the parser reads
  (`RpcSession.HonestWorker`, `PublicKeyLine.Canonical`).
- The JSON library's default nesting limit and its inexact parsing of fractions are set
  aside: a text is the tree it was printed from.
- The worker's size test counts the bytes of the printed frame, whole numbers in decimal
  (`RpcServer.RealSizeTest`).
- JSON, UTF-8, TOML, base64, SHA-256 and UUID generation are libraries; secret-shape
  heuristics, host-key probing and manifest validation are parameters.

## Model

| member | source | states |
|---|---|---|
| WorkerDisk.Disk.Harden | src/platform/linux.rs:3062-3072 | hardening changes owner, mode and ACLs of one directory only; a success leaves it private to its target, and needs the superuser or the target itself |
| Permissions.OthersMayWriteMeans | src/platform/linux.rs:3130-3148 | the mask 0o022 asks whether the group or others may write |
| Permissions.SecureDirectoryIff | src/platform/linux.rs:3074-3085 | owner, mode 0o700 and no ACLs: the owner may do everything in the directory and no other class anything |
| Permissions.SecureFileIff | src/platform/linux.rs:1813-1830 | the same for a private file, which nobody executes |
| Permissions.PrivateKeepsOut | src/platform/linux.rs:3074-3085 | nobody but its owner and the superuser may read, write or enter a private directory |
| WorkerEntries.VerifyStagedEntries | src/platform/linux.rs:2767-2829 | the loop over the entries in any order accepts exactly the directories that hold nothing but children and candidates, never both for one child, and nothing where children are not allowed |
| WorkerEvidence.ExactMarkerIff | src/platform/linux.rs:1781-1902 | a marker is exact precisely when a private directory of the creator stands under the name with one private file, whose record names the slot, the created directory, the worker, and the marker directory and file themselves |
| WorkerEvidence.ExactMarkersAgree | src/platform/linux.rs:1863-1902 | two exact markers under one name vouch for the same directory and worker |
| WorkerNode.StagedSecureIff | src/platform/linux.rs:2628-2645 | a staged directory is private to its creator or to its worker |
| WorkerDisk.Disk.RenameNoReplace | src/platform/linux.rs:2908-2920 | the rename happens whole or not at all, never replaces, and keeps the tree |
| WorkerTree.RenameKeepsTree | src/platform/linux.rs:2908-2920 | renaming in place, or moving an empty directory, keeps directories a tree |
| WorkerTree.EntryKeepsTree | src/platform/linux.rs:2476-2500 | a new directory or file under a free name keeps directories a tree |
| WorkerTree.RemovalKeepsTree | src/platform/linux.rs:3034-3048 | removing an empty directory keeps directories a tree |
| WorkerNode.CreateUnpublished | src/platform/linux.rs:2476-2530 | at most one entry, the candidate, is added whatever fails; a candidate found in place must be private and hold nothing but what is allowed |
| WorkerNode.CreateProvenance | src/platform/linux.rs:1918-1999 | a marker is created only where neither an active nor a retired one exists; after a success the stored record states the staging and destination directories, the created directory, the marker directory, its file, the worker and the name |
| WorkerNode.OpenMarker | src/platform/linux.rs:2041-2095 | a marker is absent, exact or refused, and one that stands is found |
| WorkerNode.OpenRetired | src/platform/linux.rs:2019-2039 | an exact retired marker is accepted only where no active one stands |
| WorkerNode.RecoveryAuthority | src/platform/linux.rs:2719-2765 | going on with somebody's candidate needs a creator distinct from the worker, and a candidate that is private to that creator and not published; nothing else refuses it |
| WorkerNode.Publish | src/platform/linux.rs:2838-3005 | publication either leaves the candidate staged, or hands back the published directory with its exact active marker, also as evidence of a failure after the rename; a candidate of another run without a marker is refused unchanged |
| WorkerNode.OpenPublished | src/platform/linux.rs:2201-2254 | an existing directory is opened only if no active marker bars it, unless a distinct creator works inside its own unpublished staged root; without faults exactly the reopenable ones are opened |
| WorkerNode.OpenOrCreate | src/platform/linux.rs:2192-2280 | from nothing, every outcome leaves nothing or pending evidence; from any other phase the filesystem is unchanged; pending evidence is never handed back without authority; an undisturbed reopening or permitted creation succeeds |
| WorkerNode.PublicationIsCreation | src/platform/linux.rs:2255-2280 | whatever publication leaves behind after a fresh candidate is an outcome of creating the node from nothing |
| WorkerNode.BeforePublicationPhase | src/platform/linux.rs:2255-2265 | before the rename a node is staged only or staged and marked |
| WorkerRetirement.RetireMarker | src/platform/linux.rs:1495-1529 | a marker is renamed from active to retired as a whole or not at all |
| WorkerRetirement.RenameRetires | src/platform/linux.rs:1495-1529 | the rename keeps the exact marker, the destination and every other name |
| WorkerRetirement.RetireSucceeded | src/platform/linux.rs:1434-1493 | retiring a published node settles it; replaying it on a settled node succeeds and changes nothing |
| WorkerRetirement.RetireLease | src/platform/linux.rs:1698-1706 | interrupted anywhere, the markers still active are a prefix of the creation order; a success retires all |
| WorkerRetirement.NextRetirement | src/platform/linux.rs:1698-1706 | one more retirement moves the cut between active and retired markers by one |
| WorkerAction.WalkEndsAcceptably | src/platform/linux.rs:1265-1330 | a walk to a node ends in an acceptable ancestor |
| WorkerAction.Walk | src/platform/linux.rs:838-843 | opening component by component succeeds only along trusted directories, and without faults exactly along them; a path is reported missing only behind trusted directories |
| WorkerAction.AcceptableIff | src/platform/linux.rs:3130-3148 | the check of an ancestor refuses exactly the directories that are not trustworthy: owned by root or the worker, by the worker only if that is the creator, without an access ACL, with no entry that anyone else can replace, and shared only if root's and sticky |
| WorkerAction.WalkDoneIff | src/platform/linux.rs:838-843 | a walk succeeds exactly if every directory on the way is trustworthy, and ends where the path leads |
| WorkerAction.WalkMissingIff | src/platform/linux.rs:838-843 | a walk reports a missing path exactly if everything before the gap is trusted, and refuses every other path |
| WorkerAction.Locate | src/platform/linux.rs:1265-1330 | where a support, the root or a child lives, and which locations are refused |
| WorkerAction.LocationMeans | src/platform/linux.rs:1265-1330 | a node is located exactly if the path to its parent is trusted and, for a child, the root is private to the worker; what is reported as missing and what is refused |
| WorkerAction.LocationIsLive | src/platform/linux.rs:1265-1330 | a located node names existing directories |
| WorkerAction.LocationKept | src/platform/linux.rs:1265-1330 | creating a node or retiring its evidence never moves where any located node lives |
| WorkerAction.ReservedEvidence | src/platform/linux.rs:1012-1052 | unretired evidence is always found; a retired marker must be exact and alone |
| WorkerAction.InspectLocated | src/platform/linux.rs:955-1052 | an undisturbed inspection reports exactly the specified state; under failing calls healthy and absent are never wrong, and neither is a conflict unless only a retired marker stands |
| WorkerAction.InspectNode | src/platform/linux.rs:955-1052 | the same from the layout; a missing parent is an absent node, and any other unreachable node a conflict |
| WorkerAction.CreateLocated | src/platform/linux.rs:1091-1235 | one creation step: claims arise only from nothing and only for a published node; pending evidence is refused with nothing changed; a healthy node is reported as existing |
| WorkerAction.CreateNode | src/platform/linux.rs:1091-1235 | the same for a node of a layout: a created node was untouched before and its active marker vouches for it; only a reopenable node is reported as existing, and without faults every one, with nothing changed; an unreachable node changes nothing |
| WorkerAction.InspectionMeans | src/platform/linux.rs:955-1052 | a located node is absent if none of its four names is bound, healthy if it can be reopened and has no candidate, and otherwise a conflict |
| WorkerAction.ReopenableIff | src/platform/linux.rs:2201-2254 | a directory is reopened if no active marker stands, it is private to the worker (a support: trustworthy), and a retired marker vouches for it, read off the stored files |
| WorkerAction.ReplacedDirectoryIsConflict | src/platform/linux.rs:1863-1902 | when another directory takes the place of one whose retired marker stands, the node is a conflict and is not reopened |
| WorkerAction.SettleableIff | src/platform/linux.rs:1434-1493 | when evidence is retired, read off the stored files |
| WorkerAction.RetireNode | src/platform/linux.rs:1434-1493 | a node of a layout is retired or nothing changes; without faults a published node is retired exactly if its checks pass, and replaying on a settled one succeeds and changes nothing |
| WorkerAction.HealthyIffReopens | src/platform/linux.rs:955-1010 | inspection is healthy exactly when an undisturbed reopening passes its checks |
| WorkerAction.InspectionOfPhases | src/platform/linux.rs:955-1052 | unretired evidence is a conflict, and absent means that nothing has begun |
| WorkerAction.CreatedIsSettleable | src/platform/linux.rs:1434-1493 | a created node can be retired exactly if it is the root or a child, or its creator is the worker |
| WorkerAction.UndisturbedLifecycle | src/platform/linux.rs:955-1493 | six calls from the layout: absent, created, a conflict, retired, healthy, and then only reopened; except for a support made for another user, which stays a conflict |
| WorkerRoot.OpenOrCreateChildren | src/platform/linux.rs:2404-2432 | the loop only moves the five children forward, returns each child's directory, never passes pending evidence, changes nothing when all stand, and without faults succeeds when each child can be reopened or created |
| WorkerRoot.MarkerOutlives | src/platform/linux.rs:2404-2432 | a live marker outlives whatever happens to other slots |
| WorkerRoot.ReopenableKept | src/platform/linux.rs:2201-2254 | what makes a node reopenable outlives whatever happens to other slots outside its marker |
| WorkerRoot.RemoveStagedTree | src/platform/linux.rs:2434-2446 | with an empty staged root, either nothing or exactly the staged root goes |
| WorkerRoot.FailAfterCleanup | src/platform/linux.rs:2383-2402 | nothing is removed when the candidate is not ours or a marker stands beside it; when the staged root goes the original error is reported, and otherwise that of the cleanup may be |
| WorkerRoot.CleanupRestoresIff | src/platform/linux.rs:2383-2402 | cleanup restores the parent exactly when no candidate of a child was made; otherwise an orphan is left |
| WorkerRoot.OrphanExample | src/platform/linux.rs:2383-2446 | a concrete state in which an undisturbed cleanup leaves the candidate of the first child |
| WorkerRoot.BuildFreshRoot | src/platform/linux.rs:2343-2381 | from a fresh staged root, every outcome only advances the root and its children; a success hands back all six nodes with live markers that tell the truth; without faults it succeeds where nothing stands for the children |
| WorkerRoot.FreshRootIsClear | src/platform/linux.rs:2343-2370 | beside a fresh root nothing stands for its children, unless a vanished directory left it |
| WorkerRoot.ResumeStagedRoot | src/platform/linux.rs:2343-2381 | an interrupted root is refused for every pair of uids, and by the worker itself with nothing changed |
| WorkerRoot.CompleteRootAt | src/platform/linux.rs:2282-2381 | an existing root is only opened; a pending one is refused; a missing one is built completely or not handed back |
| WorkerLayout.ViaCarries | src/platform/linux.rs:853-875 | along passable directories a layout is pending, standing and sound exactly as its remaining part |
| WorkerLayout.OpenSupports | src/platform/linux.rs:853-870 | the loop creates a chain from the first missing support on, each directory with its live marker, and nothing on a standing layout; on an open layout it succeeds without faults |
| WorkerLayout.ChainGrows | src/platform/linux.rs:853-879 | creating one more directory keeps every earlier link and its marker |
| WorkerLayout.HardenChain | src/platform/linux.rs:895-905 | giving the new directories to the worker keeps every marker and every phase, leaves each private to the worker, and succeeds without faults for those permitted |
| WorkerLayout.CreateBelow | src/platform/linux.rs:847-953 | the same below the locked anchor |
| WorkerLayout.CreateLayout | src/platform/linux.rs:815-953 | nothing happens unless every directory on the path to the anchor is trustworthy; every outcome only advances slots; a success has the lease of exactly the nodes it created and found the layout open; without faults an open layout is created if it stands or nothing orphaned is in the way; a standing layout is left unchanged |
| WorkerRerun.LeaseIsLive | src/platform/linux.rs:849-953 | every marker of a lease is live, on different nodes, in creation order |
| WorkerRerun.LeaseWasNothing | src/platform/linux.rs:849-953 | a lease only holds nodes that had left no trace before |
| WorkerRerun.CreationReports | src/platform/linux.rs:873-953 | the reported root and children are what their paths lead to |
| WorkerRerun.RootOutlivesChildren | src/platform/linux.rs:1698-1706 | wherever a retirement stopped, the root and every new directory above it are still marked active while a child is |
| WorkerRerun.PartlyRetiredIsPending | src/platform/linux.rs:1698-1706 | while one marker is active the layout is pending |
| WorkerRerun.FullyRetiredStands | src/platform/linux.rs:1698-1706 | once all markers are retired the whole layout stands |
| WorkerRerun.SuccessMeansNothingPending | src/platform/linux.rs:815-953 | a creation can only succeed where nothing is pending |
| WorkerRerun.RerunAfterRetirement | src/platform/linux.rs:815-953 | after a retirement stopped anywhere, a successful rerun means that all was retired; it creates nothing and reports all six nodes as existing with the same identities |
| WorkerUndisturbed.OpenIsNotPending | src/platform/linux.rs:2201-2254 | a layout that can be created again has no reachable pending evidence |
| WorkerUndisturbed.WayStaysOpen | src/platform/linux.rs:853-875 | work at the end of a path leaves every directory on it reopenable, with its exact retired marker |
| WorkerUndisturbed.LeaseNodeReopens | src/platform/linux.rs:2201-2254 | a completely retired node is reopenable exactly if it is canonical or its creator is the worker |
| WorkerUndisturbed.ReopensIff | src/platform/linux.rs:815-953 | after a retirement stopped anywhere, the layout can be created again exactly if every marker was retired and its creator is the worker or made no support |
| WorkerUndisturbed.RetireThenCreateAgain | src/platform/linux.rs:1698-1706 | the retirement loop and the creation, run one after the other: if the second succeeds the first was complete and nothing was created; without faults the second succeeds exactly if its creator is the worker or the directory of the root had existed |
| WorkerUndisturbed.CreateTwice | src/platform/linux.rs:815-953 | creating, retiring and creating again from any tree: a second success found what the first made; without faults the first succeeds on open layouts, the retirement always, and the second as just said |
| WorkerRuns.CallAdvances | src/platform/linux.rs:1091-1235 | every call moves a node forward or not at all, and a claim takes it from nothing to published |
| WorkerRuns.PhasesAdvance | src/platform/linux.rs:1091-1529 | over every run the phase of a node only moves forward |
| WorkerRuns.RunsStayTrees | src/platform/linux.rs:1091-1529 | over every run directories stay a tree |
| WorkerRuns.RunsStayCoherent | src/platform/linux.rs:1495-1589 | in every state of every run active and retired markers never coexist and a retired marker rules out a candidate |
| WorkerRuns.CreatedAtMostOnce | src/platform/linux.rs:1091-1235 | over any number of runs and crashes a node is handed back as created at most once, as a success, as retained evidence or in a lease |
| WorkerRuns.InterruptedCreationStaysRefused | src/platform/linux.rs:1091-1235 | while nothing about a node is retired, an interrupted creation of it stays refused with nothing changed, whatever else runs: its names stay put, and no node or layout creation claims it |
| ProvenanceRecord.EncodeRecord | src/platform/linux.rs:1781-1811 | the record is the specified bytes, and only a name of 2^32 bytes or more has none |
| ProvenanceRecord.DecodeInvertsEncode | src/platform/linux.rs:1781-1811 | a record determines its facts |
| ProvenanceRecord.EncodeInvertsDecode | src/platform/linux.rs:1781-1811 | only encodings can be read back |
| ProvenanceRecord.EncodingIsInjective | src/platform/linux.rs:1863-1902 | comparing records compares the creation facts |
| ProvenanceRecord.NamePreimageIsInjective | src/platform/linux.rs:1760-1779 | different destinations never hash the same bytes |
| FrameStream.FrameReader.ReadUntilNewline | src/rpc/frame.rs:208-215 | whatever the pieces, a read takes the bytes up to the first newline, and at most the limit and two |
| FrameStream.FrameReader.ReadText | src/rpc/frame.rs:208-232 | a read returns the specified line, or the specified error, or refuses a line that is no text, and leaves exactly the rest |
| FrameStream.FrameWriter.Write | src/rpc/frame.rs:245-256 | an oversize frame writes nothing; a success appends one line; a failure appends part of one |
| FrameStream.AcceptedIff | src/rpc/frame.rs:216-230 | a line is accepted exactly when the first newline is within the limit |
| FrameStream.RefusedIff | src/rpc/frame.rs:216-230 | end, oversize and truncation are told apart exactly by what remains |
| FrameStream.WrittenFramesAreRead | src/rpc/frame.rs:208-256 | written frames are read back in order and what follows them decides the ending |
| FrameStream.RoundTrip | src/rpc/frame.rs:208-256 | reading back all that was written gives the same payloads and then the end |
| FrameStream.TornFrameIsTruncated | src/rpc/frame.rs:219-226 | a writer that dies inside a frame costs the reader that frame only |
| FrameValue.Parse | src/rpc/frame.rs:512-569 | parsing succeeds exactly when no object at any depth repeats a member, and then gives the value |
| FrameValue.VisitSeq | src/rpc/frame.rs:570-579 | the same for arrays |
| FrameValue.VisitMap | src/rpc/frame.rs:581-593 | the same for objects |
| FrameValue.PrintedValueIsRead | src/rpc/frame.rs:512-594 | a printed value repeats nothing and is read back unchanged |
| JsonText.TextLenIsByteCount | src/rpc/frame.rs:245-256 | the size test counts the bytes of the compact text, with the escapes of section 7 of RFC 8259 and UTF-8 |
| JsonText.NoNewlineInside | src/rpc/frame.rs:245-256 | the text of a frame never contains the byte that ends it, whatever its strings contain |
| MachineUuid.TextRoundTrip | src/rpc/frame.rs:360-368 | the canonical text of a UUID is read back |
| MachineUuid.FromTextRoundTrip | src/rpc/frame.rs:360-368 | only canonical texts are read |
| MachineUuid.Version7Iff | src/rpc/frame.rs:360-368 | the version and variant tests read the digits that begin the third and fourth groups |
| FrameCodec.Decode | src/rpc/frame.rs:313-340 | a text is accepted as a frame exactly if it repeats no member, is an object that spells the frame, and the frame is well-formed |
| FrameCodec.DecodeIff | src/rpc/frame.rs:313-488 | a value is accepted as a frame exactly if the frame is well-formed and the object has exactly the frame members that are printed for it, as printed, except that a diagnostic may be spelled with unknown members or as a sequence |
| FrameCodec.DecodeErrorIff | src/rpc/frame.rs:313-500 | an unknown type is reported first, then members of the wrong type as malformed, then the identifier, and every other refusal as malformed |
| FrameRules.WellFormedIff | src/rpc/frame.rs:342-510 | the well-formed frames in numbers of bytes and digits of identifiers |
| FrameCodec.AcceptedIsWellFormed | src/rpc/frame.rs:342-510 | every accepted value is a well-formed frame |
| FrameCodec.DecodeInvertsEmit | src/rpc/frame.rs:88-148 | decoding inverts serialization exactly on the well-formed frames |
| FrameCodec.AcceptedTextIsCanonical | src/rpc/frame.rs:313-510 | an accepted text is accepted again as the same frame |
| FrameCodec.NullDataIsRefused | src/rpc/frame.rs:432-463 | a successful response without data or with null is printed but never accepted |
| RpcId.RequestIdIsControllerId | src/rpc/frame.rs:490-500 | every identifier of a session is a valid controller identifier of at most 21 bytes |
| RpcId.ControllerIdIff | src/rpc/frame.rs:490-500 | the accepted identifiers are "c" and a positive decimal number |
| RpcId.RequestIdIsInjective | src/rpc/mod.rs:294-301 | different counters give different identifiers |
| RpcProtocol.IntersectionIsHighest | src/rpc/mod.rs:30-37 | the negotiated version is the highest both speak, and there is none exactly when the ranges do not meet |
| RpcProtocol.NegotiateMeans | src/rpc/mod.rs:39-55 | a hello is negotiated to the highest common version exactly if the manifest schemas agree and there is one |
| RpcProtocol.FailureResponseIsNotFatal | src/rpc/mod.rs:387-395 | the failure response is accepted and fails only the request it names |
| RpcClient.Client.Request | src/rpc/mod.rs:287-364 | one request is sent under the next identifier and one attempt to read decides: matching data is returned and the session lives; the failure to execute is reported and it lives; the end of the stream, an error frame with this identifier and everything else give their own error and end it; a request that cannot be sent ends it |
| RpcClient.Client.Ask | src/rpc/mod.rs:198-240 | the same with the opinion of the typed method, whose dislike of the data ends the session |
| RpcClient.Client.MachineManifest | src/rpc/mod.rs:198-226 | asks "machine.manifest" without parameters, with the same outcomes |
| RpcClient.Client.MachineStatus | src/rpc/mod.rs:228-240 | asks "machine.status" without parameters, with the same outcomes |
| RpcClient.Client.Doctor | src/rpc/mod.rs:242-253 | a key without canonical form is rejected locally with the session untouched; otherwise "machine.doctor" is asked with the canonical key alone |
| RpcClient.Client.Exec | src/rpc/mod.rs:255-262 | an invalid vector is rejected locally with the session untouched; otherwise "exec.run" is asked with the vector alone |
| RpcClient.Connect | src/rpc/mod.rs:155-192 | a session begins only after a hello with a common version and schema, and then always if the answer fits and the pipe works; otherwise the error is determined by what came first, and an incompatible hello alone is answered, with the error frame that says why |
| RpcClient.AnswerComesFromItsResponse | src/rpc/mod.rs:319-341 | which frames give data and which a non-fatal failure |
| RpcClient.AnswerIsOutcome | src/rpc/mod.rs:318-363 | what every attempt to read means for the outstanding request, code by code |
| RpcClient.TerminationIsFinal | src/rpc/mod.rs:287-372 | a terminated session stays terminated, writes nothing and fails every call |
| RpcClient.TerminatedIff | src/rpc/mod.rs:198-372 | a session is terminated exactly when a call failed with neither the remote failure nor a local rejection |
| RpcClient.IdentifiersAreNotReused | src/rpc/mod.rs:294-301 | no two requests carry the same identifier |
| RpcServer.ServeManifest | src/rpc/server.rs:29-133 | the server writes a prefix of its specified reactions, all of them when it ends well; on a working pipe its output and result are what is stated for the inputs: the hello, a reply to each call, and the ending that the first other input has |
| RpcServer.WholeIsStated | src/rpc/server.rs:29-149 | for every input the reactions are what is stated position by position: the k-th reply answers the k-th call, and the session ends at the first input that is no call, with the result and the error frame for it |
| RpcServer.StatedIsUnique | src/rpc/server.rs:29-149 | the statement determines the output and the result |
| RpcServer.UnderstoodIff | src/rpc/server.rs:151-237 | a request is not malformed exactly if it asks for the manifest or the status without parameters, for the doctor with one key line alone, or to run one valid vector alone |
| RpcServer.FirstMalformedEnds | src/rpc/server.rs:82-109 | the first malformed request with the right identifier ends the session, and the error frame that names it is the last thing written |
| RpcServer.ServeOne | src/rpc/server.rs:76-132 | one turn of the loop against the reaction function |
| RpcServer.SendReply | src/rpc/server.rs:112-131 | an oversize response writes nothing and is replaced by the failure response with the same identifier |
| RpcServer.FailureResponseFits | src/rpc/server.rs:112-128 | the failure response always fits into a frame |
| RpcServer.ServerHelloFits | src/rpc/server.rs:36-45 | every well-formed hello fits into a frame |
| RpcServer.FailureFrameFits | src/rpc/server.rs:135-149 | every error frame fits, whatever legible identifier it repeats |
| RpcServer.RealWorkersSmallFramesFit | src/rpc/frame.rs:245-256 | against the real size test, what a worker says besides its answers always fits |
| RpcServer.ServerAnswersInOrder | src/rpc/server.rs:74-132 | for every input the k-th response names the k-th request and an error frame is the last thing written |
| RpcSession.BuiltIsUnderstood | src/rpc/server.rs:151-215 | every request the client builds is understood by the server |
| RpcSession.StepKeepsInv | src/rpc/server.rs:74-132 | every step of the composed system keeps the two sides in step |
| RpcSession.QuiescentInStep | src/rpc/mod.rs:287-364 | when nothing is in flight the server expects the client's next identifier and every request was answered once by its own |
| RpcSession.NeverAnErrorFrame | src/rpc/server.rs:29-149 | an honest server never sends an error frame to an honest client |
| RpcSession.LockStep | src/rpc/mod.rs:287-364 | responses are read in order and only the awaited request is unanswered |
| RpcSession.EveryAnswerIsTaken | src/rpc/mod.rs:319-341 | an honest client is never forced to terminate by an answer |
| RpcSession.OnlyWellFormedFrames | src/rpc/frame.rs:88-149 | everything in flight to a live peer is a well-formed frame |
| RpcSession.FarewellIsUnderstood | src/rpc/mod.rs:173-181 | what a client says to an incompatible worker is read as it was written and ends the worker's session well |
| PublicKeyLine.CanonicalIsStable | src/rpc/mod.rs:425-436 | a canonical key line is its own canonical form |
| PublicKeyLine.CanonicalIff | src/rpc/mod.rs:425-436 | a line has a canonical form exactly if it has at most 16 KiB and begins with the two fields of a valid key; the form is these fields and one space |
| ExecArgv.ValidateExecArgv | src/rpc/mod.rs:476-493 | the loop decides exactly the stated bounds |
| ExecArgv.AcceptedArgvFits | src/rpc/mod.rs:476-493 | every accepted vector fits into one well-formed frame, at sixfold escaping |
| ExecCapture.CaptureOutput | src/rpc/server.rs:312-340 | exactly the first mebibyte is kept, overflow says whether there was more, and it is signalled once |
| MachineIdentity.StepKeepsInv | src/manifest/mod.rs:1926-2021 | every step of every process keeps the lock exclusive, writers in agreement with the file, and one minter |
| MachineIdentity.IdentityIsForever | src/manifest/mod.rs:2323-2363 | the stored identity goes from absent to one value and never changes |
| MachineIdentity.EverySuccessReturnsIt | src/manifest/mod.rs:1926-2021 | every success returned the identity that is stored |
| MachineIdentity.MintedAtMostOnce | src/manifest/mod.rs:1970-2001 | at most one call reports that it minted |
| MachineIdentity.MintingNeedsAbsence | src/manifest/mod.rs:1970-2058 | nobody mints over a stored identity |
| ManifestStore.Store.Read | src/manifest/mod.rs:1901-1921 | what a read returns, exactly, when the file can be read, and when the missing identity is reported |
| ManifestStore.Store.ReconcileLocked | src/manifest/mod.rs:1970-2001 | reconciling keeps a stored identity and the document, and mints exactly when there was none; if the file can be read and written it fails on invalid documents only |
| ManifestStore.Store.ReadOrReconcileLocked | src/manifest/mod.rs:1926-1940 | the reread under the lock decides between returning and minting, which changes nothing but the missing identity; if the file can be read and written it fails on invalid documents only |
| ManifestStore.Store.ExistingId | src/manifest/mod.rs:2038-2058 | which identity a draft inherits, and that only an invalid document has none to give |
| ManifestStore.Store.WriteGenerated | src/manifest/mod.rs:2004-2021 | a draft replaces the document and keeps its identity; if the file can be read and written, an acceptable draft is written unless the present document is invalid |
| Inventory.ValidateHosts | src/inventory/store.rs:684-704 | the loop accepts exactly the ordered, distinct, well-made inventories of at most 1024 hosts |
| Inventory.LessIff | src/inventory/store.rs:181-185 | names are ordered by their first difference, a prefix first |
| Inventory.UpsertOutcome | src/inventory/store.rs:205-223 | when an upsert finds the record, creates it, or refuses it and why |
| Inventory.UpsertKeepsValid | src/inventory/store.rs:205-223 | an upsert keeps the inventory valid, keeps every other record and adds one |
| Inventory.ReplaceOutcome | src/inventory/store.rs:225-243 | a replacement succeeds exactly on the expected record, changes it alone and stays valid |
| Inventory.InventoryDocument.Upsert | src/inventory/store.rs:205-223 | the method computes the specified upsert, and leaves the document alone on errors |
| Inventory.InventoryDocument.Replace | src/inventory/store.rs:225-243 | the method computes the specified replacement |
| Inventory.InventoryDocument.Select | src/inventory/store.rs:195-201 | a named host, or the only one |
| Inventory.SortOrdersIff | src/inventory/store.rs:181-185 | sorting orders a list exactly if its names are distinct |
| Inventory.SortedIsValidIff | src/inventory/store.rs:181-185 | which lists are valid inventories once sorted |
| Inventory.NewDocument | src/inventory/store.rs:181-185 | a list in any order is accepted exactly if it has at most 1024 good hosts with distinct names and identities, and becomes the valid inventory of the same hosts |
| HostFiles.StepKeepsInv | src/main.rs:517-663 | every step of every command, failure or crash keeps the three files consistent |
| HostFiles.FilesStayConsistent | src/main.rs:517-663 | in every state every host has a valid cache, the inventory replays every committed update, and known_hosts is the text of a committed inventory |
| HostFiles.SelectionIsCurrent | src/main.rs:651-663 | a successful selection leaves known_hosts equal to the text of the inventory, and the selected host is in it and has a cache |
| HostFiles.EnrolledForever | src/main.rs:517-588 | no enrollment is ever lost |
| KnownHostsText.TextIsInjective | src/transport/ssh.rs:119-134 | the text of known_hosts determines the hosts, ports and keys of its lines, in order |
| KnownHostsText.KnownHostsMeans | src/inventory/store.rs:553-583 | known_hosts says of each host of the inventory, in order, where it is and its key, and nothing else |
| HostCommands.HostStore.RebuildKnownHosts | src/inventory/store.rs:553-583 | known_hosts becomes the text of the inventory or stays |
| HostCommands.HostStore.Enroll | src/main.rs:517-528 | whatever fails, the cache is there before the host; a success has the record, its cache and, without a warning, current known_hosts |
| HostCommands.HostStore.Trust | src/main.rs:581-588 | a success replaces exactly the expected record; a refusal changes nothing |
| HostCommands.HostStore.SelectForNetwork | src/main.rs:651-663 | a success returns a host of the inventory with known_hosts current |
| HostCommands.HostStore.Refresh | src/main.rs:323-326 | writing a cache without the lock keeps the files consistent |
| AncestorChain.VerifyChain | src/platform/linux.rs:4704-4729 | the walk accepts exactly the stated chains |
| AncestorChain.ValidateAncestor | src/platform/linux.rs:4731-4756 | one directory of the walk |
| AncestorChain.OwnersAreUserThenRoot | src/platform/linux.rs:4704-4756 | the owners are the user one or more times and then root |
| AncestorChain.AcceptedIsProtected | src/platform/linux.rs:4704-4756 | no third user can replace any entry of an accepted chain, in its group or not |
| AncestorChain.AcceptedIff | src/platform/linux.rs:4704-4756 | what the check asks for beyond protection, and that it asks for nothing else |
| TextSplit.JoinOfSplit | src/manifest/mod.rs:2854-2860 | joining undoes splitting |
| TextSplit.SplitOfJoin | src/manifest/mod.rs:2854-2860 | splitting undoes joining |
| NativePath.ValidPathIsJoined | src/manifest/mod.rs:2849-2864 | an accepted path is the join of its components |
| NativePath.JoinedPathIsValid | src/manifest/mod.rs:2849-2864 | every list of names joins to an accepted path with these components |
| NativePath.DescendantIffPrefix | src/manifest/mod.rs:2893-2898 | the string test is component-wise prefix |
| NativePath.PairInTextIff | src/manifest/mod.rs:2812-2818 | the two string tests are two consecutive components |
| NativePath.OppositeFamilyIff | src/manifest/mod.rs:2807-2839 | the forbidden roots on Linux and macOS, on components |
| NativePath.SixPaths | src/manifest/mod.rs:2788-2805 | accepted worker paths are six different ones, five strict children of the root |
| SleepPosture.ParseSleepPosture | src/platform/macos.rs:250-280 | the loop has a value exactly when every power section has its one well-formed setting and none precedes them, and it is true when all are zero |
| SleepPosture.KindMeans | src/platform/macos.rs:255-269 | a line is a header if it ends with " Power:", white space aside, and otherwise a setting if its first word is "sleep", with the words that follow |
| SleepPosture.RuledOut | src/platform/macos.rs:250-280 | a line that rules a report out rules out every longer one |

## Left out

- The macOS twin of the worker-directory protocol: it is the same protocol.
- System calls themselves, ACL calls, account lookup, spawning and privilege drop: only their success, failure or crash is modelled.
- `WorkerFs.SecureFile`: the link count of a record file is not modelled; nothing in the protocol makes a second link.
- Resuming an interrupted root by a distinct creator: every path in the code ends in a refusal, and the refusal is what is proved.
- `FrameStream.FrameReader.ReadText`: which bytes are UTF-8 is a parameter.
- `FrameValue.PrintedValueIsRead`: objects are printed in some order of their members, not in the order of the library.
- `RpcSession.NeverAnErrorFrame`: frames instead of bytes travel between the two sides; `FrameStream.RoundTrip` and `FrameCodec.DecodeInvertsEmit` are the two halves that justify this for the well-formed frames of `RpcSession.OnlyWellFormedFrames`.
- Whether the client accepts every result of a remote command: replacing invalid UTF-8 can lengthen it beyond the client's limit.
- Spawning and supervising the remote command around the capture loop.
- The pending-publication session of the manifest store, which carries identities decided elsewhere.
- The prompts, probes and network exchanges before the locked parts of the host commands.
- Inventory identity paths that are not UTF-8, whose serialization is lossy.
- `NativePath.OppositeFamilyIff`: Linux and macOS only; the Windows tests ignore case and are separate code.
- Secret-shape heuristics, command-line parsing, output envelopes, resource probing and the setup wizard: user interface and tables.
