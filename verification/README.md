# Verification of the migration and publication core

The repository plans an API migration, applies it to a working tree, and publishes the result under a
one-use owner authorization. Everything it promises is fail-closed: formats have one spelling, transactions
happen completely or not at all, and a token or a record is used once whatever races, crashes or clock steps
occur. This project models those parts in Dafny and proves the promises for every input, every run and every
reachable state. `dafny verify dfyconfig.toml` checks the whole project.

## How the model reads

| modules | part of the system |
|---|---|
| `Unicode`, `Order` | UTF-16 text, its UTF-8 bytes, strict and lossy decoding, lexicographic order |
| `CanonicalJson`, `JsonParser`, `CanonicalCodec`, `CanonicalParser`, `CanonicalShortest`, `CanonicalOrder` | the canonical JSON serializer, a parser for RFC 8259, and the strict reader |
| `GitPath`, `GitTree`, `GitObject`, `GitWalk`, `GitBinding`, `GitTreeId`, `GitReader` | Git paths, tree building, object encoding and reading, tree ids |
| `SourceHeader`, `BigEndian`, `SourceBundle`, `SourceFrames`, `SourceParser`, `SourceEncoder`, `SourceSpelling` | the framed source bundle |
| `Spelling` | how walks spell a path: names joined by slashes, backslashes turned into slashes |
| `RepositoryTree`, `Transaction`, `TransactionCommit`, `TransactionRollback`, `TransactionApply`, `TransactionAtomicity`, `TransactionCalm`, `TransactionOrdinary`, `TransactionSlips`, `TransactionTwins`, `TransactionLegible` | the candidate-tree transaction |
| `TreeFrames`, `PipelineStream` | the length-framed record stream of both tree digests |
| `TreeListing`, `TreeCollect`, `TreeEntries`, `TreeWalk`, `TreeRepeats`, `TreeOrder`, `TreeDigest`, `TreeFiles`, `TreeTwins`, `TreeSeen`, `TreeFaithful`, `TreeUnread`, `TreeShadow`, `TreeSuccess` | the regular-tree digest of the runner |
| `JobRecord`, `JobStore`, `JobProtocol`, `JobAgreement`, `JobProgress`, `JobRepeats` | runner jobs: records, the shared store, racing clients |
| `ReplayLedger`, `OwnerGrant` | the replay ledger, its anchor, and the owner grant |
| `SourceStore` | write-once job sources |
| `EvidenceDeadline`, `DeadlineRun`, `EvidenceAcquire` | the evidence budget and an acquisition over it |
| `Receipts` | the one-shot console receipts |
| `Artifact`, `ArtifactTransfer`, `ArtifactSuccess`, `ArtifactOrdinary` | inspecting, applying and confirming an artifact |
| `TscErrors` | compiler output and error differencing |

Conventions shared by all of them:

- A hash is an arbitrary function. No lemma assumes that it is injective: where equal digests should mean equal
  contents, the lemma says so or names two byte strings of the run that collide.
- Signatures and HMACs are membership: a partial function from texts to the payloads that are authentic.
- A thrown error is `None`, `Err` or a failed state. Clocks, random names, faults and outsiders are arbitrary
  inputs; a monotonic clock is assumed only where a lemma says so.
- Several processes are a list of program counters over one shared state. One step is one store transaction or one
  file-system operation. A crash is a process that takes no further step.
- A JavaScript string is a sequence of UTF-16 code units, a Buffer a sequence of bytes. Integers are unbounded; every
  limit of the code is written out.

## Where the code keeps less than its description

- Names with a backslash. Every walk keys an entry by its names joined by slashes, with each backslash turned into a
  slash, so a file named `a\b` and the file `a/b` share one key.
- Names and link targets that are not UTF-8. They are decoded lossily: what is no UTF-8 becomes U+FFFD, and a listed
  name is looked up as it was decoded. An entry whose name is not UTF-8 is never read itself. Where the decoded name
  exists, that entry is read in its place; where it does not, the walk fails. Links whose targets decode alike have one
  record. A name or target that is UTF-8 without U+FFFD is legible: nothing else decodes to it (`Unicode.LegibleAlone`).
- What these mean for the transaction. A successful call always leaves the intended keys and records
  (`TransactionAtomicity.AppliedView`). It leaves exactly the target tree when the target is legible, the expected and
  the starting tree hold no backslash and outsiders make none (`TransactionAtomicity.AppliedExactly`), and whatever
  outsiders do when the target is legible and has nothing inside a directory (`TransactionAtomicity.FlatExactly`).
  Otherwise an edit at the first hook slips in unseen: a link is pointed to another target that decodes alike
  (`TransactionTwins.LinkSlips`), an entry is written under another name that decodes alike
  (`TransactionTwins.NameSlips`), or a deeper entry is copied or moved under its name with backslashes
  (`TransactionTwins.TwinSlips`). The call then runs, succeeds and misses the target
  (`TransactionSlips.ApplyUnderEdit`). The first two need no backslash, so legibility is needed in both theorems
  (`TransactionLegible.IllegibleMisses`); for trees without backslashes that an undisturbed call turns into the target,
  success is exact whatever outsiders do exactly when the target is flat and legible
  (`TransactionAtomicity.FlatExactly`, `TransactionLegible.ExactOrSlips`).
- What they mean for the regular-tree digest. It binds the collected list, in the order of the walk, whatever the names
  (`TreeFaithful.DigestBindsLists`), and so the last visited file under every key (`TreeFaithful.DigestTells`). Without
  backslashes it binds exactly the files on paths of UTF-8 names (`TreeFaithful.DigestFaithful`), which is every file
  when all listed names are UTF-8 (`TreeFaithful.DigestExact`). As soon as one listed name is not UTF-8, a tree with
  other files has the same digest (`TreeUnread.UnreadTwin`, and `TreeShadow.StrayShadows` for the smallest pair). A
  file with a backslash whose slash twin is free can be copied there unseen (`TreeUnread.TwinOnDisk`); two trees that
  collect to one map can still hash different bytes (`TreeShadow.OrderTells`).
- What they mean for the artifact. Inspection and apply reconstruct the walk of the proposed tree exactly when, key by
  key, the entries that stay agree with the proposed ones (`ArtifactTransfer.Reconstructs`); where no two entries share
  a key, exactly when every entry under a changed key is at the path that the key names
  (`ArtifactTransfer.ReconstructsOwn`). A changed file `a\b` is reported as `a/b`, passes inspection, apply and
  confirmation, and is not transferred (`ArtifactSuccess.BackslashMissed`). An entry under a name that is not UTF-8, or
  a link whose new target decodes as the old one, changes unreported (`ArtifactTransfer.UnreadMissed`).
- New directories. `applyCandidateFiles` also resolves each changed path below the expected root, so a new file in a
  directory that the expected tree lacks is refused, and so is a listed path that neither tree has.
  `TransactionOrdinary.ApplyOrdinary` and `TransactionCalm.CalmApplies` give the exact condition for success, which
  includes that the resulting tree can be walked at all.
- Ignored directories. A changed file below `.git` or `node_modules` that the proposed tree has can never be applied:
  the overlay shows it and the walk does not. `TransactionAtomicity.AppliedExactly` states it.
- A file that becomes a directory with files in it, or the reverse, never passes artifact inspection: `lstat` below a
  file fails with ENOTDIR. `ArtifactSuccess.NestedChangeRefused` proves it, and `ArtifactSuccess.AppliesIff` gives the
  exact condition for apply to succeed.
- One-shot receipts. A preview is exchanged at most once unless the clock crosses its expiry and steps back before it
  (`Receipts.AtMostOnce`); at any times with such a lapse some requests exchange it twice (`Receipts.LapseReuses`). A
  clock that never steps back has none (`Receipts.ForwardNeverLapses`).
- Job records. An append whose record outgrows the byte bound is reported as `store_corrupt`, like damage in the store;
  the model tells the two apart (`JobRecord.Grown`). With genuine clients damage is never reported (`JobAgreement.NeverCorrupt`).

## Model

| member | source | states |
|---|---|---|
| `Unicode.AssertValidUnicode` | packages/app/src/canonical-json.ts:126-138 | the index loop accepts exactly the texts whose surrogates are all paired |
| `Unicode.DecodeOfEncode` | packages/app/src/canonical-json.ts:100-124 | decoding the UTF-8 of well-formed text returns it |
| `Unicode.EncodeOfDecode` | packages/app/src/canonical-json.ts:100-124 | bytes that decode are the UTF-8 of what they decode to |
| `Unicode.LossyDecodes` | packages/engine/src/pipeline.ts:531 | any bytes are read as UTF-8, which shows U+FFFD if they were none |
| `Unicode.LegibleAlone` | packages/engine/src/pipeline.ts:576-582 | UTF-8 without U+FFFD is read from no other bytes |
| `CanonicalCodec.CanonicalRoundTrip` | packages/app/src/canonical-json.ts:7-75 | a parser for RFC 8259 recovers every accepted value from its canonical text |
| `CanonicalCodec.CanonicalInjective` | packages/app/src/canonical-json.ts:7-75 | different accepted values never share a canonical text |
| `CanonicalCodec.SerializableExactly` | packages/app/src/canonical-json.ts:7-75 | a value is accepted exactly when everything in it is: no unsupported part, fraction, unsafe or negative zero number, or unpaired surrogate |
| `CanonicalShortest.UnitUnique` | packages/app/src/canonical-json.ts:11 | no spelling of a character is shorter than its canonical one, and one as short differs at most in the case of hexadecimal digits, which are small letters |
| `CanonicalShortest.CharsShortest` | packages/app/src/canonical-json.ts:11 | no spelling of a string is shorter than its canonical one |
| `CanonicalShortest.CanonicalIsShortest` | packages/app/src/canonical-json.ts:7-75 | among all texts that are parsed to a value, with its integers in plain digits, none is shorter than the canonical one, so it has no white space outside strings and no needless escape |
| `CanonicalOrder.KeysInOrder` | packages/app/src/canonical-json.ts:43-71 | the canonical text of an object spells each key once, a proper prefix before its extension and otherwise the smaller code unit at the first difference first |
| `CanonicalOrder.TokensSpelled` | packages/app/src/canonical-json.ts:8-71 | brackets, separators and the three names are those of JSON |
| `Order.LessExactly` | packages/runner/src/filesystem.ts:223-225 | a byte string is less than another exactly when it is a proper prefix of it or has the smaller byte where they first differ |
| `CanonicalParser.ReadsExactly` | packages/app/src/canonical-json.ts:100-124 | an input is read as a text exactly when it spells that valid, non-empty text within the byte bound |
| `CanonicalParser.RenderValid` | packages/app/src/canonical-json.ts:7-75 | every canonical text is well-formed Unicode, so its UTF-8 is defined |
| `CanonicalParser.AcceptsExactlyCanonical` | packages/app/src/canonical-json.ts:77-98 | the strict reader accepts an input as a value exactly when it spells that value's canonical text: reordered or duplicate keys, white space and other escapes or numbers are refused |
| `CanonicalParser.OneTextPerValue` | packages/app/src/canonical-json.ts:77-98 | two accepted inputs with one value are the same input |
| `GitPath.SplitOfJoin` | packages/app/src/runner-git-tree.ts:76-100 | splitting joined components returns them |
| `GitPath.ValidExactly` | packages/app/src/runner-git-tree.ts:76-100 | a path is valid exactly when it joins at most 64 components, none empty, `.`, `..` or a spelling of `.git` or `node_modules`, without control characters and backslashes, in at most 4096 bytes of UTF-8 |
| `GitTree.InsertSucceeds` | packages/app/src/runner-git-tree.ts:102-122 | one insertion succeeds exactly when no proper prefix is a file and the path is no directory |
| `GitTree.InsertEffect` | packages/app/src/runner-git-tree.ts:102-122 | it adds this file and the directories above it, and changes no other path |
| `GitTree.BuildExact` | packages/app/src/runner-git-tree.ts:54-74 | a list is accepted exactly when its paths are distinct and none is a component prefix of another; the tree holds exactly these files |
| `GitTree.OrderIndependent` | packages/app/src/runner-git-tree.ts:54-74 | neither acceptance nor the tree depends on the order of the entries |
| `GitTree.Extensional` | packages/app/src/runner-git-tree.ts:185-187 | a tree is determined by its files and directories |
| `GitTreeId.BuildTree` | packages/app/src/runner-git-tree.ts:54-74 | the loop over entries with its seen set computes that tree, or refuses an invalid or repeated path |
| `GitTreeId.ComputeGitTreeOid` | packages/app/src/runner-git-tree.ts:54-74 | the method returns the tree id of the specification, for every list |
| `GitWalk.WalkIncreasing` | packages/app/src/runner-git-tree.ts:161-165 | walking a tree in item order lists full paths in strictly increasing byte order |
| `GitWalk.WalkHas` | packages/app/src/runner-git-tree.ts:124-159 | the walk lists exactly the files of the tree |
| `GitTreeId.WalkIsBundleOrder` | packages/app/src/runner-source-bundle.ts:193-195 | a byte-ordered entry list is exactly the walk of its tree |
| `GitBinding.FrameInjective` | packages/app/src/runner-git-tree.ts:167-177 | the object header separates objects of one kind |
| `GitBinding.ItemsBind` | packages/app/src/runner-git-tree.ts:124-159 | equal tree bodies list the same names, modes and object ids |
| `GitBinding.TreeBinding` | packages/app/src/runner-git-tree.ts:124-177 | equal tree ids come from equal trees, or two of the hashed objects collide |
| `GitTreeId.OidBindsEntries` | packages/app/src/runner-git-tree.ts:54-74 | entry lists with one tree id hold the same entries, or two of the hashed byte strings collide |
| `GitReader.TreeReadsBack` | packages/app/src/runner-git-tree.ts:124-159 | a reader of the bytes `40000 `, `100644 ` and `100755 ` recovers from a tree body exactly the files with their execute bits, the directories, and their object ids, in Git's order |
| `GitReader.OidsHashObjects` | packages/app/src/runner-git-tree.ts:167-177 | an id hashes `blob` or `tree`, a space, the length in decimal digits, a NUL and the body |
| `BigEndian.Read32OfU32` | packages/app/src/runner-source-bundle.ts:469-504 | a 32-bit length is read back from its four bytes |
| `BigEndian.Read64OfU64` | packages/app/src/runner-source-bundle.ts:469-504 | a 64-bit length is read back from its eight bytes |
| `SourceHeader.HeaderExact` | packages/app/src/runner-source-bundle.ts:506-617 | the header reader returns a header exactly for the canonical form of that valid header |
| `SourceHeader.HeaderSerializable` | packages/app/src/runner-source-bundle.ts:506-617 | every valid header has a canonical text |
| `SourceFrames.DecodeOfFrame` | packages/app/src/runner-source-bundle.ts:469-504 | an encoded entry is decoded back, whatever follows |
| `SourceFrames.FrameOfDecode` | packages/app/src/runner-source-bundle.ts:173-211 | bytes decoded as an entry are that entry's encoding |
| `SourceFrames.CheckedEnd` | packages/app/src/runner-source-bundle.ts:727-734 | the checked end of a field, or a refusal when it passes the end |
| `SourceFrames.ReadFrame` | packages/app/src/runner-source-bundle.ts:173-211 | one turn of the entry loop at an absolute offset decodes the frame there, and reads nothing past the end |
| `SourceFrames.ReadFrames` | packages/app/src/runner-source-bundle.ts:169-212 | the entry loop returns the one strictly ordered, valid entry list that the bytes spell, and refuses bytes that spell none |
| `SourceParser.ReadFront` | packages/app/src/runner-source-bundle.ts:150-168 | accepts exactly the bytes that open with the magic and a header that fits, and returns the header |
| `SourceParser.Parse` | packages/app/src/runner-source-bundle.ts:150-227 | the offset arithmetic accepts exactly the laid-out bundles and returns their parts |
| `SourceParser.ParseSourceBundle` | packages/app/src/runner-source-bundle.ts:150-227 | what is accepted is the encoding of the returned header and entries, and every valid encoding is accepted with its own header and entries |
| `SourceParser.EncodingInjective` | packages/app/src/runner-source-bundle.ts:108-148 | two valid bundles with the same bytes are the same bundle |
| `SourceBundle.BundleFits` | packages/app/src/runner-source-bundle.ts:36-46 | the final size check cannot fail: the header, entry, path and total limits imply it |
| `SourceEncoder.EncodeEntries` | packages/app/src/runner-source-bundle.ts:469-504 | succeeds exactly within every entry limit, and then returns the frames and the total |
| `SourceEncoder.CreateSourceBundle` | packages/app/src/runner-source-bundle.ts:108-148 | succeeds exactly on inputs that make a valid bundle, and returns its bytes |
| `SourceEncoder.SealBundle` | packages/app/src/runner-source-bundle.ts:120-148 | the final part: canonical header, header limit, whole file |
| `SourceSpelling.BundleSpelled` | packages/app/src/runner-source-bundle.ts:36-46 | a bundle is its mark, the header length in four bytes, the canonical header, the frames and its closing mark |
| `SourceSpelling.FrameSpelled` | packages/app/src/runner-source-bundle.ts:469-504 | a frame is the path length in four bytes, 1 for an executable file and 0 for any other, the content length in eight bytes, path and content, the largest byte first |
| `SourceSpelling.FormatSpelled` | packages/app/src/runner-source-bundle.ts:113-124 | a header with ids of 40 digits names `sha1`, any other `sha256` |
| `SourceSpelling.TreeTextEither` | packages/app/src/runner-source-bundle.ts:113-118 | with digests of 20 and 32 bytes the tree id is checked under the hash whose digests are as long as the ids |
| `SourceSpelling.ObjectIdSpelled` | packages/app/src/runner-git-tree.ts:35-39 | object ids are 40 or 64 small hexadecimal digits |
| `SourceSpelling.EntriesWithin` | packages/app/src/runner-source-bundle.ts:469-504 | entries are valid exactly within the path, file and total limits and in byte order |
| `Spelling.SplitOfSpelled` | packages/engine/src/pipeline.ts:536 | without backslashes a key splits into exactly the names it was spelled from |
| `Spelling.TwinSpelled` | packages/runner/src/filesystem.ts:94 | a backslash in a name spells like a slash between two names |
| `RepositoryTree.KeyInjective` | packages/engine/src/pipeline.ts:536 | different paths without backslashes have different keys |
| `RepositoryTree.TwinSpells` | packages/engine/src/pipeline.ts:536 | every deeper path has a twin: one name in the root with the same key |
| `RepositoryTree.NoOtherKey` | packages/engine/src/pipeline.ts:536 | a single plain name has none |
| `RepositoryTree.RenameKeeps` | packages/engine/src/pipeline.ts:348-367 | a rename of a file keeps every ancestor a real directory |
| `RepositoryTree.RecordBinds` | packages/engine/src/pipeline.ts:567-591 | equal tree records come from equal nodes, or from links whose targets are read alike, or what was hashed of them collides |
| `RepositoryTree.DecodedIsRead` | packages/engine/src/pipeline.ts:531-537 | what a listed name is looked up as is UTF-8, is skipped exactly when the name is, and is the name itself or shows U+FFFD |
| `RepositoryTree.FoundIsShown` | packages/engine/src/pipeline.ts:529-549 | a walk that does not fail finds exactly the entries on paths of UTF-8 names |
| `Transaction.Repository.Step` | packages/engine/src/pipeline.ts:286-406 | a mutating step takes its effect, or fails and changes nothing |
| `Transaction.FillStage` | packages/engine/src/pipeline.ts:322-331 | copies a proposed file to its stage with its mode and records it, touching only that stage |
| `Transaction.StageFile` | packages/engine/src/pipeline.ts:298-332 | stages one changed file; without faults it succeeds exactly when the file can be staged |
| `Transaction.StageAll` | packages/engine/src/pipeline.ts:298-332 | staging changes no path but its own fresh ones, tracks each of them, and ends with every candidate waiting |
| `Transaction.HookKeeps` | packages/engine/src/pipeline.ts:348-349 | outsiders' edits at a hook leave the staged candidates valid |
| `Transaction.InstallKeeps` | packages/engine/src/pipeline.ts:358-366 | a commit turns the expected state of its path into the proposed one and changes no other path |
| `TransactionCommit.Install` | packages/engine/src/pipeline.ts:358-366 | the rename or unlink does that, or fails and leaves the tree as it was |
| `TransactionCommit.CommitOne` | packages/engine/src/pipeline.ts:348-367 | one turn commits only over the expected state that it saw after the hook; on failure the tree is as the hook left it |
| `TransactionCommit.CommitAll` | packages/engine/src/pipeline.ts:348-367 | the whole loop is such turns in order, up to the first failure; without faults and with the changed files left alone it commits every committable file |
| `TransactionCommit.RecheckAll` | packages/engine/src/pipeline.ts:338-346 | passes exactly when every original is unchanged, faults apart |
| `TransactionCommit.VerifyAll` | packages/engine/src/pipeline.ts:372-378 | passes exactly when every candidate is in place, faults apart |
| `TransactionCommit.SparedRun` | packages/engine/src/pipeline.ts:348-367 | a path that outsiders leave alone is as proposed once committed, and as it was until then |
| `TransactionCommit.WasCommittable` | packages/engine/src/pipeline.ts:348-367 | a committed file that outsiders leave alone was committable before the first commit |
| `TransactionRollback.RestoreFile` | packages/engine/src/pipeline.ts:445-463 | copy, mode, rename and cleanup restore the expected file, or leave it untouched; without faults no rollback file remains |
| `TransactionRollback.Restore` | packages/engine/src/pipeline.ts:439-464 | the same for files that did not exist |
| `TransactionRollback.RollBackOne` | packages/engine/src/pipeline.ts:385-394 | one item is restored exactly when it was installed and still is in its candidate state |
| `TransactionRollback.CleanUpOne` | packages/engine/src/pipeline.ts:395-399 | the stage an item still holds is removed |
| `TransactionRollback.RollBackAll` | packages/engine/src/pipeline.ts:383-404 | the reverse loop restores exactly the restorable items, changes nothing else and leaves no stage, faults apart |
| `TransactionApply.CheckEnd` | packages/engine/src/pipeline.ts:372-381 | the final checks pass exactly when all candidates are in place, every listed name is found as it was read and the tree has the intended digest, faults apart |
| `TransactionApply.ApplyCandidateFiles` | packages/engine/src/pipeline.ts:286-406 | the whole call: on success every final check held of the tree it leaves, on failure the tree is the reverse rollback of what was committed; without faults it succeeds exactly when its checks hold |
| `TransactionAtomicity.AppliedView` | packages/engine/src/pipeline.ts:286-406 | after success, whatever outsiders did, a walk of the tree shows exactly the keys and records of the expected tree overlaid with the changed files, or two byte strings that this call hashed collide |
| `TransactionAtomicity.AppliedExactly` | packages/engine/src/pipeline.ts:286-406 | if the target is legible, the expected and the starting tree hold no backslash and outsiders make none, after success every path is as in the expected tree overlaid with the changed files of the proposed one, with no stage left |
| `TransactionAtomicity.FlatExactly` | packages/engine/src/pipeline.ts:286-406 | the same whatever names outsiders make, if every path of the target is one legible name in the root |
| `TransactionAtomicity.NothingClobbered` | packages/engine/src/pipeline.ts:383-404 | after failure, even with a failing rollback, a path is as the last hook left it, or it still was ours and is as expected again, or the last turn committed it over its expected state; ours is the proposed file or one whose contents collide with it |
| `TransactionAtomicity.RolledBackExactly` | packages/engine/src/pipeline.ts:383-404 | a rollback without faults restores every committed file that still was the proposed one or collides with it, leaves every other path to outsiders' edits, and removes every name of its own |
| `TransactionAtomicity.FailureChangesNothing` | packages/engine/src/pipeline.ts:286-406 | if nobody else edits, a failed call with a rollback without faults leaves the tree identical to the start |
| `TransactionCalm.CalmApplies` | packages/engine/src/pipeline.ts:286-406 | if nothing fails and nobody edits, and no changed file shares its key, the call succeeds exactly when every changed file, at any depth, has real directories above it on all three sides, is the expected file or nothing, and is proposed as a file or deleted, and the resulting tree can be walked |
| `TransactionOrdinary.ApplyOrdinary` | packages/engine/src/pipeline.ts:286-406 | undisturbed and over trees of ordinary names, the call succeeds exactly when every changed file has plain components, real directories above it on all three sides, the expected file or nothing in the starting tree, and a file in the proposed one or one to delete; it then leaves each as proposed and the rest as it was, and otherwise changes nothing |
| `TransactionSlips.SlipSucceeds` | packages/engine/src/pipeline.ts:348-381 | when one edit that no walk sees is made at the first hook, the call succeeds and the edit stays |
| `TransactionSlips.ApplyUnderEdit` | packages/engine/src/pipeline.ts:286-406 | the call itself, run under such an edit, returns success over the edited tree |
| `TransactionTwins.LinkSlips` | packages/engine/src/pipeline.ts:576-582 | pointing an unchanged link to another target that is read alike is such an edit |
| `TransactionTwins.NameSlips` | packages/engine/src/pipeline.ts:531-537 | so is writing any entry under another name that is read like one in the tree |
| `TransactionTwins.TwinSlips` | packages/engine/src/pipeline.ts:536 | so is copying or moving a deeper entry to its twin in the root |
| `TransactionLegible.IllegibleMisses` | packages/engine/src/pipeline.ts:286-406 | when the target holds a name or link that something else is read as, some edit without backslashes of its own makes a successful call miss it |
| `TransactionLegible.ExactOrSlips` | packages/engine/src/pipeline.ts:286-406 | for trees without backslashes the target is flat and legible, so that success is exact, or some edit slips in that makes a successful call miss it |
| `TreeFrames.FramesInjective` | packages/runner/src/filesystem.ts:227-230 | equal concatenations of length-framed records are the same records |
| `TreeFrames.StreamInjective` | packages/engine/src/pipeline.ts:555-563 | equal hashed streams carry equal records in the same order |
| `PipelineStream.FramedIsFaithful` | packages/engine/src/pipeline.ts:550-564 | equal repository streams come from walks with the same keys and records, in whatever order the entries were taken |
| `PipelineStream.ViewStreams` | packages/engine/src/pipeline.ts:550-564 | every readable walk has such a stream |
| `PipelineStream.RecordSpelled` | packages/engine/src/pipeline.ts:559 | a hashed record is the array of kind name, key, mode and digest |
| `TreeListing.ListingHas` | packages/runner/src/filesystem.ts:84-118 | the walk visits exactly the entries that a path of unskipped names reaches |
| `TreeListing.SkippedSpelled` | packages/runner/src/filesystem.ts:92 | `.git` and `node_modules` are passed over, and nothing else |
| `TreeWalk.RemainingPushed` | packages/runner/src/filesystem.ts:86-100 | pushing the directories of one directory leaves exactly the walk below it to do |
| `TreeWalk.ScanDirectory` | packages/runner/src/filesystem.ts:91-116 | the loop over one directory looks every listed name up as it was read, records its files and pushes its directories, stopping at the first refusal |
| `TreeWalk.CollectRegularTree` | packages/runner/src/filesystem.ts:84-118 | the stack loop terminates and computes the fold of the loop body over the whole walk, repeated names included |
| `TreeSuccess.CollectsExactly` | packages/runner/src/filesystem.ts:84-118 | over UTF-8 names without backslashes the collection succeeds exactly when everything reached is a directory or a regular file of one link within the size limit, at most 64 names deep, and the files are within the count and byte limits |
| `TreeRepeats.RepeatsUnseen` | packages/runner/src/filesystem.ts:91-116 | names that are listed alike, and directories that are walked twice, leave the collected list as if each were read once |
| `TreeSeen.SeenAt` | packages/runner/src/filesystem.ts:91-101 | where nothing is refused the walk reaches exactly what paths of UTF-8 names reach |
| `TreeSeen.UnaliasedWalk` | packages/runner/src/filesystem.ts:84-118 | by UTF-8 names every entry is visited once, and as it is |
| `TreeOrder.ListingOrdered` | packages/runner/src/filesystem.ts:84-118 | the walk lists files in an order that depends on their paths alone |
| `TreeFaithful.CollectedSpells` | packages/runner/src/filesystem.ts:84-118 | whatever the names, each collected entry is that of a regular file under its key, one entry a key, and every file on a path of UTF-8 names has its key collected |
| `TreeFaithful.CollectedLast` | packages/runner/src/filesystem.ts:84-118 | whatever the names, an entry is collected exactly when it is that of the last visited file under its key |
| `TreeFaithful.CollectedExactly` | packages/runner/src/filesystem.ts:84-118 | without backslashes each regular file on a path of UTF-8 names outside the skipped ones is collected once, with its mode, size and digest, and nothing else is |
| `TreeDigest.HashedInjective` | packages/runner/src/filesystem.ts:125-140 | equal hashed streams carry equal entry lists, for any names |
| `TreeDigest.RecordSpelled` | packages/runner/src/filesystem.ts:134-137 | a hashed record is the array of path, Git file mode, size and digest |
| `TreeDigest.ExclusionExactly` | packages/runner/src/filesystem.ts:214-221 | an exclusion is refused exactly for an empty, `.` or `..` component, a NUL or a backslash |
| `TreeDigest.RegularTreeDigestExcluding` | packages/runner/src/filesystem.ts:125-140 | the digest exists exactly for distinct safe exclusions and a collectable tree, and is the hash of the header and the kept records |
| `TreeFaithful.DigestBindsLists` | packages/runner/src/filesystem.ts:84-140 | whatever the names, two hashed streams are equal exactly when the collected lists outside the exclusions are |
| `TreeFaithful.DigestTells` | packages/runner/src/filesystem.ts:84-140 | whatever the names, equal hashed streams mean the same last visited file under every key outside the exclusions |
| `TreeFaithful.DigestFaithful` | packages/runner/src/filesystem.ts:84-140 | without backslashes, two hashed streams are equal exactly when every path of UTF-8 names outside the exclusions holds the same file |
| `TreeFaithful.DigestExact` | packages/runner/src/filesystem.ts:84-140 | if moreover every listed name is UTF-8, exactly when every path outside the exclusions does |
| `TreeUnread.AliasUnseen` | packages/runner/src/filesystem.ts:91-101 | an entry whose name is not UTF-8, in any directory, can be any other of its kind without changing the walk |
| `TreeUnread.UnreadTwin` | packages/runner/src/filesystem.ts:91-116 | as soon as one listed name is not UTF-8, a tree with other files, and no new backslash, is collected alike |
| `TreeTwins.TwinUnseen` | packages/runner/src/filesystem.ts:91-116 | a file with a backslash in its name, in any directory, can be copied to its free slash twin without changing the collected list |
| `TreeUnread.TwinOnDisk` | packages/runner/src/filesystem.ts:91-116 | the same of a disk with UTF-8 names, where only one of the two trees has the copy |
| `TreeShadow.BackslashShadows` | packages/runner/src/filesystem.ts:91-94 | of two files under one key either can differ unseen: two trees are collected alike |
| `TreeShadow.StrayShadows` | packages/runner/src/filesystem.ts:91-95 | beside a file named U+FFFD, the file whose name is the byte FF can hold anything: both are read as the first |
| `TreeShadow.OrderTells` | packages/runner/src/filesystem.ts:134-137 | two trees with the same collected map can hash different bytes, because the Map is hashed in insertion order |
| `JobRecord.ReviewAppends` | packages/app/src/runner-job-record-contract.ts:225-245 | appending a review keeps a record valid, keeps its prepared fields and advances it by one revision |
| `JobRecord.IdentityAppends` | packages/app/src/runner-job-record-contract.ts:248-272 | the same for an identity |
| `JobRecord.CurrentBackwards` | packages/app/src/runner-job-record-contract.ts:209-223 | a record is current only while every record it extends is |
| `JobRecord.CurrentExactly` | packages/app/src/runner-job-record-contract.ts:209-223 | a record is current exactly inside its plan, from its review on for ten minutes, and before its identity expires |
| `JobRecord.ReviewExactly` | packages/app/src/runner-job-record-contract.ts:225-245 | an append stores exactly the review asked for, or returns a record that already holds it, inside the window |
| `JobRecord.IdentityExactly` | packages/app/src/runner-job-record-contract.ts:248-272 | the same for an unexpired identity of this job, plan and review |
| `JobStore.InsertKeeps` | packages/db/src/runner-job-store-sqlite.ts:228-240 | an insert keeps keys and job ids unique and the store within its bound, and loses nothing |
| `JobStore.SwapKeeps` | packages/db/src/runner-job-store-sqlite.ts:241-259 | a compare-and-swap keeps them too, and never lowers a revision |
| `JobStore.InsertExactly` | packages/db/src/runner-job-store-sqlite.ts:228-240 | what keeps a row out, and by which error: it is malformed, another key has its job id, or the store holds a hundred jobs |
| `JobStore.SwapExactly` | packages/db/src/runner-job-store-sqlite.ts:241-259 | a swap takes place exactly when the row still is the previous one and the next is its successor by one revision |
| `JobStore.Connection.Observe` | packages/db/src/runner-job-store-sqlite.ts:219-227 | the high-water time is raised, or an earlier or unusable time is refused |
| `JobStore.Connection.InsertRow` | packages/db/src/runner-job-store-sqlite.ts:228-240 | the transaction and its readback; every refusal leaves the store as it was |
| `JobStore.Connection.Swap` | packages/db/src/runner-job-store-sqlite.ts:241-259 | the row is replaced exactly when it still is the previous one |
| `JobStore.Connection.ReadRow` | packages/db/src/runner-job-store-sqlite.ts:215-218 | the row of a key, if any |
| `JobAgreement.ReadGenuine` | packages/app/src/runner-job-service-core.ts:23-36 | reading a genuine row recovers its valid record, never corruption |
| `JobAgreement.InsertGenuine` | packages/app/src/runner-job-producer.ts:139-141 | inserting a candidate keeps the store genuine and only adds to it |
| `JobAgreement.SwapGenuine` | packages/app/src/runner-job-service-core.ts:130-133 | a swap stores an extension of the record it replaces, or changes nothing because the row has moved on |
| `JobAgreement.StepKeeps` | packages/app/src/runner-job-service-core.ts:99-148 | every step of every client keeps the store genuine and only extends records |
| `JobAgreement.RunInv` | packages/app/src/runner-job-service-core.ts:99-148 | so every reachable state is genuine, with each client's records stored as it believes |
| `JobAgreement.RunEvolves` | packages/db/src/runner-job-store-sqlite.ts:219-259 | over any interleaving no prepared field, review or identity changes once set, and the observed time never decreases |
| `JobAgreement.Agreement` | packages/app/src/runner-job-producer.ts:106-150 | all successful clients of one campaign run agree on job, plan, source and intent, on the review and on the identity, and got what they asked for |
| `JobAgreement.NeverCorrupt` | packages/app/src/runner-job-service-core.ts:134-143 | with genuine clients the branches that report a damaged or foreign store are unreachable |
| `JobAgreement.LosingReviewer` | packages/app/src/runner-job-service-core.ts:144-147 | a reviewer that lost the swap goes on exactly when the winner stored the same review |
| `JobAgreement.LosingPreparer` | packages/app/src/runner-job-producer.ts:140-149 | a preparer that finds another job inserted goes on exactly when that has the same source, subject and expiry |
| `JobAgreement.AcquirerReads` | packages/app/src/runner-job-evidence.ts:42-53 | an acquirer goes on exactly when its candidate is what is stored, which is so whenever its swap went through |
| `JobAgreement.ReturnsCurrent` | packages/app/src/runner-job-evidence.ts:54-60 | a returned record was stored before the step that returned it, and that step sampled a time inside every limit of it and no earlier than any observed time |
| `JobProgress.PrepareSucceeds` | packages/app/src/runner-job-producer.ts:74-150 | under any clock that advances before the expiry asked for, an uncontested preparation stores and returns a record created at its own sample for what was asked |
| `JobProgress.ReviewSucceeds` | packages/app/src/runner-job-service-core.ts:109-148 | under any clock that advances before the reviewed job expires, an uncontested review stores and returns exactly the review asked for |
| `JobProgress.AcquireSucceeds` | packages/app/src/runner-job-evidence.ts:22-58 | under any clock that advances before the identity expires, an uncontested acquisition stores and returns exactly the verified identity |
| `JobRepeats.PrepareRepeats` | packages/app/src/runner-job-producer.ts:127-133 | a preparation of a stored job, at any revision, returns it when source, subject and expiry are the same and conflicts when they are not; no row changes |
| `JobRepeats.ReviewRepeats` | packages/app/src/runner-job-service-core.ts:109-127 | a review of a reviewed job returns it when it is the same review and conflicts when it is not; no row changes |
| `JobRepeats.AcquireRepeats` | packages/app/src/runner-job-evidence.ts:22-58 | an acquisition for a job with an identity returns it when the client answers the same one and conflicts when it answers another; no row changes |
| `JobRepeats.NothingToExtend` | packages/app/src/runner-job-service-core.ts:109-115 | a review or an acquisition of a missing job, or of another job id, fails and changes no row |
| `ReplayLedger.RunKept` | packages/db/src/client.ts:274-405 | over any run the anchor stays, ledgers only grow and identity rows stay, whatever files are swapped in |
| `ReplayLedger.OneLedger` | packages/db/src/client.ts:433-461 | at most one file is ever accepted as the ledger |
| `ReplayLedger.IdentityDetermined` | packages/db/src/client.ts:433-461 | under one anchor a file is accepted with exactly one identity row |
| `ReplayLedger.AnchorDetermined` | packages/db/src/client.ts:433-461 | under one identity row only an anchor of the same file, digest, store, path and time is accepted |
| `ReplayLedger.OneUse` | packages/db/src/client.ts:352-405 | no authorization id, envelope id, envelope digest or nonce digest is consumed twice, so no authorization mints two tokens, from whatever files and anchor the processes find |
| `ReplayLedger.SpentStaysSpent` | packages/db/src/client.ts:352-405 | what the accepted file already held at the start is never consumed again |
| `ReplayLedger.ConsumptionStays` | packages/db/src/client.ts:246-259 | a consumption stays in the accepted file through resets, crashes and swaps |
| `ReplayLedger.OrphanBlocks` | packages/db/src/client.ts:264-273 | a crash between anchor and identity row blocks the store for good |
| `ReplayLedger.InitializeSucceeds` | packages/db/src/client.ts:274-338 | an undisturbed initialization leaves the file accepted if it was that already or neither its row nor an anchor was there, and is refused otherwise, changing nothing |
| `ReplayLedger.PublishSucceeds` | packages/app/src/auth.ts:289-340 | an undisturbed publication writes its row exactly when the ledger is accepted, holds none of its keys and the authorization is agreed and unexpired; it then mints exactly when it stays so up to the mint |
| `OwnerGrant.Grant.AssertCurrent` | packages/app/src/owner-authorization.ts:309-324 | passes exactly for a grant not yet consumed, inside its times and still registered |
| `OwnerGrant.Grant.MarkConsumed` | packages/app/src/owner-authorization.ts:350-380 | keeps a receipt exactly when it is this grant's first, matches its consumption and lies inside the window |
| `OwnerGrant.Grant.AssertCurrentConsumed` | packages/app/src/owner-authorization.ts:396-413 | passes exactly for a consumed grant still inside its times and registered |
| `OwnerGrant.ResolveAuthorizedWriteAuth` | packages/app/src/auth.ts:263-354 | the grant is consumed, a token is minted and it is returned exactly when every check up to that point passed at its own time, over a ledger entry of this grant inside the window |
| `OwnerGrant.PresentRepeatedly` | packages/app/src/auth.ts:289-340 | however often one grant is presented, it mints at most one token |
| `OwnerGrant.PassBounds` | packages/app/src/owner-authorization.ts:652-678 | a passing check lies inside the envelope, which lasts at most thirty minutes and no longer than the authorization |
| `SourceStore.WriteOnce` | packages/db/src/runner-job-source-store.ts:131-176 | over interleaved puts and crashes no visible entry changes or disappears |
| `SourceStore.StoredIsComplete` | packages/db/src/runner-job-source-store.ts:131-176 | over a store that may hold earlier entries and stages, a put returns only if the stored bytes are its argument, every entry is the whole argument of some put, and earlier entries stay |
| `SourceStore.OneWinner` | packages/db/src/runner-job-source-store.ts:131-176 | two puts for one job with different bytes never both succeed |
| `SourceStore.PutSucceeds` | packages/db/src/runner-job-source-store.ts:131-176 | a put that meets no fault publishes its entry, however short its writes, and leaves nothing else |
| `SourceStore.PutAgain` | packages/db/src/runner-job-source-store.ts:136-145 | a put of an existing entry succeeds exactly when the bytes are the same |
| `SourceStore.LosingPut` | packages/db/src/runner-job-source-store.ts:131-176 | a put that finds another entry published removes its stage, and succeeds exactly when the bytes are the same |
| `SourceStore.SpoiledCleans` | packages/db/src/runner-job-source-store.ts:146-176 | a put that a fault or a failed check spoils at any step is refused and leaves no stage |
| `SourceStore.PutRefused` | packages/db/src/runner-job-source-store.ts:131-140 | a put of nothing or of more than 8 MiB is refused and changes nothing |
| `SourceStore.ReadEntry` | packages/db/src/runner-job-source-store.ts:105-112 | the loop of short reads returns exactly the first bytes of the file, or fails on an empty read |
| `EvidenceDeadline.Deadline.constructor` | packages/app/src/runner-evidence-deadline.ts:20-88 | a deadline starts live exactly when its first reading is usable and before the expiry |
| `EvidenceDeadline.Deadline.Check` | packages/app/src/runner-evidence-deadline.ts:47-86 | passes exactly when live, inside the budget and with neither clock running backwards; failing aborts |
| `EvidenceDeadline.Deadline.Cap` | packages/app/src/runner-evidence-deadline.ts:92-96 | an expiry only comes closer and is checked at once |
| `EvidenceDeadline.Deadline.Close` | packages/app/src/runner-evidence-deadline.ts:146-152 | closing disarms the timer for good |
| `DeadlineRun.ReturnedOrDisposed` | packages/app/src/runner-evidence-deadline.ts:97-145 | in every ordering a produced value is returned or disposed of exactly once, never both |
| `DeadlineRun.NeverAfterAbort` | packages/app/src/runner-evidence-deadline.ts:80-86 | once aborted or closed, a run never returns a value |
| `DeadlineRun.UndisturbedReturns` | packages/app/src/runner-evidence-deadline.ts:97-145 | undisturbed, the value is returned |
| `DeadlineRun.AlwaysReleased` | packages/app/src/runner-evidence-deadline.ts:97-145 | once an abort, a failure or a value leaves no microtask behind, the run has ended, and without a value it threw |
| `DeadlineRun.OnlyWithinBudget` | packages/app/src/runner-evidence-deadline.ts:97-145 | an operation starts and a value is returned only by a turn that finds the deadline open, not aborted and within budget |
| `DeadlineRun.UndisturbedThrows` | packages/app/src/runner-evidence-deadline.ts:97-145 | an undisturbed failure makes the run throw |
| `EvidenceAcquire.RunOperation` | packages/app/src/runner-evidence-deadline.ts:97-145 | an awaited value is handed on only after a check that passed when it arrived |
| `EvidenceAcquire.Gather` | packages/app/src/runner-evidence-core.ts:43-50 | both keys and the envelope arrive in budget, both keys cap the deadline and agree; while the clock crosses no limit, each missing, late, lapsed or disagreeing answer has its own failure, the first one deciding |
| `EvidenceAcquire.Conclude` | packages/app/src/runner-evidence-core.ts:52-75 | the synchronous part returns the identity of this context verified at a time between its checks, which expires at the earliest of ten minutes after the preview, the plan and the key, and is the retained one if there is one; while the clock crosses no limit it fails exactly on an invalid attestation or another retained identity |
| `EvidenceAcquire.Acquire` | packages/app/src/runner-evidence-core.ts:20-81 | a success was checked last less than ten monotonic seconds after its start and below every limit ever applied, the first ten wall seconds included, with the attestation verified between start and that check, and the returned expiry, the earliest of preview, plan and key limits, still ahead; while the clock runs forward within the budget and crosses no limit it succeeds exactly when nothing is wrong, and otherwise fails with the first thing that is |
| `Receipts.Console.Prune` | packages/console/lib/approval.ts:669-671 | exactly the expired entries are dropped |
| `Receipts.Console.AssertUnused` | packages/console/lib/approval.ts:663-677 | pruning, then the key of an unused token |
| `Receipts.Console.Preview` | packages/console/lib/approval.ts:166-202 | a preview is accepted when authentic, for this subject, unexpired and unspent |
| `Receipts.Console.Challenge` | packages/console/lib/approval.ts:262-330 | a challenge is accepted when it matches its unspent version 1 preview |
| `Receipts.Console.Prepare` | packages/console/lib/approval.ts:336-390 | the exchange and what it consumes |
| `Receipts.AtMostOnce` | packages/console/lib/approval.ts:336-390 | no preview yields two approvals, from any store and through any pruning, unless the clock crosses its expiry and steps back before it |
| `Receipts.ForwardNeverLapses` | packages/console/lib/approval.ts:663-677 | a clock that never steps back does not do that |
| `Receipts.SpentChallengeRefused` | packages/console/lib/approval.ts:258-330 | in any run, after an exchange every later request with a challenge receipt of that preview is refused, unless it shows another text of the same digest |
| `Receipts.ExpiryChain` | packages/console/lib/approval.ts:228-233 | approval, challenge and preview expire in that order, and an approval within ten minutes |
| `Receipts.UnspentExchanges` | packages/console/lib/approval.ts:336-390 | a preview is exchanged exactly when it is unspent and in time, of version 1, and shown with a challenge derived from it and an envelope that is neither empty nor too long; the approval binds the challenged digest and the shown envelope and lasts ten minutes or as long as the challenge; exactly the expired entries leave the store |
| `Receipts.UnspentShown` | packages/console/lib/approval.ts:166-202 | a preview is accepted exactly when in time, with intact local bindings if it is of version 2, and not remembered as consumed |
| `Receipts.UnspentIssues` | packages/console/lib/approval.ts:204-256 | a preview gets a challenge, for any digest, exactly when it can be shown, is of version 1, and the end asked for is later than now and no later than its own |
| `Receipts.UnspentConfirms` | packages/console/lib/approval.ts:262-330 | a challenge is accepted exactly with the unspent preview it was derived from, in time and for their subject |
| `Receipts.LapseReuses` | packages/console/lib/approval.ts:663-677 | at any times with such a lapse, some requests at exactly these times exchange the preview twice |
| `Artifact.InspectVerifiedArtifact` | packages/app/src/artifact.ts:46-76 | inspection accepts exactly the reports of normalized paths that name all changed keys, each regular or missing, and returns them without duplicates |
| `Artifact.Checkout.ApplyOne` | packages/app/src/artifact.ts:84-115 | one file is updated, created with its directories or deleted, or refused with nothing changed |
| `Artifact.Checkout.ApplyVerifiedArtifact` | packages/app/src/artifact.ts:79-116 | the loop applies every file or stops at the first refusal |
| `Artifact.AssertAppliedArtifact` | packages/app/src/artifact.ts:119-131 | confirms exactly the checkouts whose artifact paths equal the proposed ones |
| `ArtifactTransfer.Reconstructs` | packages/app/src/artifact.ts:46-131 | after inspection and a successful apply to any checkout with the base's walk, every walk is the proposed one exactly when, under each changed key, what stays elsewhere and what was copied agree with the proposed entry, and under any other key everything does |
| `ArtifactTransfer.ReconstructsOwn` | packages/app/src/artifact.ts:46-131 | where no two entries share a key, exactly when every entry under a changed key is at the path the key names |
| `ArtifactTransfer.UnreadMissed` | packages/app/src/artifact.ts:148-178 | an entry under a name that is not UTF-8, or a link whose target is read as before, changes unreported and is not transferred |
| `ArtifactTransfer.AppliedBetween` | packages/app/src/artifact.ts:79-116 | whatever the trees, a successful apply gives every file its proposed state and changes nothing else but for new directories |
| `ArtifactTransfer.PlainOwnPaths` | packages/app/src/artifact.ts:158 | trees without backslashes meet that condition |
| `ArtifactSuccess.AppliesIff` | packages/app/src/artifact.ts:79-116 | on a clone of the base apply succeeds exactly when no changed path is a directory on either side |
| `ArtifactSuccess.AlwaysConfirmed` | packages/app/src/artifact.ts:119-131 | after a successful apply the confirmation always passes |
| `ArtifactOrdinary.TransferOrdinary` | packages/app/src/artifact.ts:46-131 | between trees of ordinary names, inspection, apply and confirmation succeed exactly when the report names the changed keys and every path that differs is a file or nothing on both sides with only directories above it; every path then has the proposed content, a changed file its bytes and permission bits, and an entry that did not differ is as it was |
| `ArtifactOrdinary.ExecutableDigits` | packages/app/src/artifact.ts:223-225 | a file counts as executable exactly when one of its last three octal digits is odd |
| `ArtifactSuccess.NestedChangeRefused` | packages/app/src/artifact.ts:185-193 | a changed path below a file of either tree is never accepted |
| `ArtifactSuccess.BackslashMissed` | packages/app/src/artifact.ts:158 | a changed file named with a backslash passes inspection, apply and confirmation and is not transferred |
| `TscErrors.ParseTscErrors` | packages/engine/src/verifier.ts:307-333 | the parsing loop returns the errors of the line-by-line specification |
| `TscErrors.HasUnclassifiedTscOutput` | packages/engine/src/verifier.ts:344-361 | reports exactly the output with a line that is no blank, diagnostic or continuation |
| `TscErrors.ClassifiedExactly` | packages/engine/src/verifier.ts:344-361 | output is classified exactly when every line is blank, opens a diagnostic, or is indented below a line that opened one |
| `TscErrors.ParseComplete` | packages/engine/src/verifier.ts:307-361 | without a global diagnostic, every non-blank line belongs to exactly one parsed error in order, if and only if the output is classified |
| `TscErrors.ParseLoses` | packages/engine/src/verifier.ts:307-333 | the raw text of the parsed errors is the non-blank lines at some increasing positions: nothing is invented, repeated or reordered |
| `TscErrors.ParsedFromLines` | packages/engine/src/verifier.ts:307-333 | every parsed error has the file, position and code of its first line, and its message is that line's with all continuation lines |
| `TscErrors.IntroducedErrors` | packages/engine/src/verifier.ts:1465-1479 | the filter with its counting map computes the introduced errors |
| `TscErrors.IntroducedCount` | packages/engine/src/verifier.ts:1465-1479 | each signature is introduced as often as it exceeds the baseline |
| `TscErrors.IntroducedPositions` | packages/engine/src/verifier.ts:1465-1479 | the result is a subsequence of the errors afterwards |
| `TscErrors.PassesIff` | packages/engine/src/verifier.ts:738-743 | nothing is introduced exactly when no signature occurs more often than in the baseline |

## Left out

- GitTree.Insert: nested Maps are updated in place in the source; here a directory is a value and insertion returns the new tree, so sharing of subtrees is not modelled.
- CanonicalJson.Serializable: undefined, functions, accessors, sparse arrays, foreign prototypes and cycles are one unsupported value; the ancestors set of the source is only its cycle guard.
- JsonParser.JsonParse: a number that is no safe integer is passed to an arbitrary rounding function, because the strict reader refuses every such result; the engine's nesting limit is not modelled.
- SourceHeader.ReadHeader: slug and branch expressions are arbitrary predicates, and the member names are distinct arbitrary texts instead of their English spellings.
- SourceEncoder.CreateSourceBundle: reading the checkout through Git is not modelled; the tracked entries are an input, sorted and bounded as the reader delivers them.
- Transaction.HooksRespectStaging: outsiders act only at the hooks and leave the transaction's own uniquely named stages alone.
- Transaction.FileList: deduplication and sorting of the changed files by the language are assumed; any order of distinct files is covered. File names with unpaired surrogates are not modelled.
- Artifact.Collected: the stack loop of `collectTree` has the shape of the one proved in TreeWalk; here its result is any map that some order of the walk gives. The artifact digest and the sorting of its files are not modelled.
- Artifact.Sets: a listed name that is not UTF-8 is read as the entry that has its decoded name; where that one is of another kind, the source throws, or follows it if it is a symbolic link, and neither is modelled.
- Transaction.Walks: the stack loop of `repositoryTreeDigest` is represented by any map that some order of the walk gives, and PipelineStream.Framed by any enumeration of it.
- TreeWalk.Listed: entries that are listed under one name are one repeated name, so which of them `readdirSync` returns first is not modelled; where their kinds differ the walk fails at one of them, and here at the first.
- JobRecord.Lawful: the record codec is any bijection between valid records within the byte bound and accepted texts; CanonicalParser proves that property of the JSON layer, and the plan and evidence validators are arbitrary predicates.
- JobStore.RowOk: the regular expressions of the row columns are an arbitrary predicate; schema, pragma and integrity checks are not modelled.
- JobProtocol.Step: reading the checkout, custody checks and the source bundle of a preparation are not modelled; the evidence client answers with an arbitrary identity.
- JobProgress.PrepareSucceeds: one client alone; what races do to it is JobAgreement's subject.
- ReplayLedger.Step: durability calls and file permissions are not modelled; a committed row is never lost, and inode numbers are not reused.
- OwnerGrant.ResolveAuthorizedWriteAuth: GitHub identity and registry lookups are one answer for each check.
- SourceStore.Step: owner, permission and link checks and the capacity inventory are one answer for each check, so the entry and byte limits are not proved to hold under races.
- DeadlineRun.Step: one run at a time over a shared deadline; microtasks of other runs appear as aborts and closes between its own.
- EvidenceAcquire.Acquire: the attestation verifier is an arbitrary function of its inputs and the time.
- Receipts.Console: the consumed map is lost when the process restarts, as in the source; operator approval tokens, whose map has the same shape, are not modelled.
- TscErrors.Parse: the regular expressions are arbitrary functions of a line; splitting output into lines, and text on the error stream, are not modelled.
- Network transport, the container runner, dependency policy, reports, console pages, code transforms and command-line parsing are not modelled: they promise little that a for-all statement would add to.
