# rsync-win in Dafny

A model of the parts of rsync-win that carry its correctness: the two file-list
codecs, the batching of file lists, the engine that makes one tree a copy of
another, the compressed token stream and the multiplexed stream, the delta
algorithm, filter patterns, shell quoting and the holes of sparse files.

What the program computes is written as functions. Where the program works by
changing things (writers, readers, builders, the filesystem, the run itself) there
are classes and loops too, and each of their methods is proved to do what the
function says, in every case the model has and with its errors. The theorems are
about the functions and so hold of the methods.

`dafny verify dfyconfig.toml` checks everything.

## Modules

- Bytes: `Wire` (streams, results, little-endian numbers), `Seqs`, `Varint`,
  `IndexCodec`, `Lengths`.
- Protocol-31 file lists: `FileEntry`, `FileListWriter` and `FileListReader` (what is
  sent, what is made of any bytes), `FileListSteps`, `FileListRoundTrip`,
  `FileListExact`, `FileListTheorem`, `FileListExamples`, and `FileListCodec`, the
  writer object and the reading loop.
- Protocol-27 file lists: `FileList27` and `FileListCodec27`.
- Batches: `FileListBatches`, and `SyncReceiver`, the receiving end.
- Synchronisation: `MemoryFs`, `PathOrder`, `SyncSpec` (a run as a function),
  `SyncEffects`, `SyncDeletes`, `SyncProgress`, `SyncStages`, `SyncMirror`,
  `SyncSettled`, `SyncDryRun`, `SyncPrediction`, `SyncMisjudged`, `SyncDryRunTheorem`, and
  `SyncEngine` and `SyncTree`, the run over a filesystem that changes under it.
- Streams: `TokenSpec`, `TokenFrames`, `TokenTheorem`, `TokenStored`, `TokenCodec`;
  `Multiplex`, `MultiplexCodec`.
- Delta: `RollSum`, `Delta`, `DeltaEngine`.
- Patterns: `GlobSpec`, `GlobMatcher`, `FilterRule`. Others: `Chars`, `RemoteShell`,
  `Sparse`.

## What is taken as given

- The compressor and the decompressor are two functions of what they have been
  given since their last reset, under the laws in `TokenSpec.Lawful`: output only
  grows, a sync flush after new bytes ends in the four-byte tail, and inflating up to a
  flush gives back what was put in. `TokenStored.StoredIsLawful` shows that some codec obeys them.
- The strong checksum is any function, and no result assumes that it never collides:
  each says on what inputs a collision would matter.
- A path component is its rank in byte order in the sync engine, and a sequence of
  bytes or characters elsewhere.
- In the sync engine the filter rules and the files-from list appear as one
  arbitrary function, `protect`, that says which deletions are refused. The rules
  that decide it are modelled apart, in `FilterRule`.
- A Rust error is one case of a datatype; its text is not kept.

## Where the code does not do what one would hope

Each of these is a theorem. Where a law fails on some inputs, a second theorem gives
the condition under which it holds.

- A varlong with a one-byte minimum is written but not read back from 2^49 on
  (`Varint.OneByteVarlongFails`). The general law for every width is
  `Varint.VarlongRoundTripsExactly`.
- With fake-super but without extended attributes, the reader expects payloads that
  the writer does not send (`FileListTheorem.MissingXattrs`).
- The reader keeps a user or group name for a later entry that has none
  (`FileListExamples.StaleNames`), and a hard link takes every field of the first
  member of its group (`FileListExamples.DisagreeingLinks`).
  `FileListTheorem.RoundTripsExactly` shuts out these families and no more: its
  condition `Faithful` looks at entries and options only.
- An entry over the allocation limit makes the builder lose the batch that was
  waiting, though its indexes stay used (`FileListBatches.TooLargeDropsBatch`).
- A dry run misreports when it sees, in a file's place, what the real run would have
  removed, and when a late delete pass meets entries that the transfer has already
  buried (`SyncDryRunTheorem.DryRunMisleads`). `SyncDryRunTheorem.DryRunPredicts` says
  exactly when it does not, in every delete mode and under every limit.
- A protected entry is lost with an unprotected directory above it
  (`SyncDeletes.SurvivesExactly`). `SyncMirror.MirrorSpares` says what protection saves
  over a whole run.
- An entry that starts a link group and cannot be written leaves its group in the
  writer's table (`FileListCodec.Rsync31FileListWriter.WriteEntry`).
- The delta algorithm gives back other bytes where a signed block and a window of the
  target collide in both sums (`Delta.CollisionLoses`). `Delta.RestoresExactly` is the
  exact condition for one basis and one target, `Delta.DeltaRestores` a simpler check
  that is enough, and `Delta.LosslessExactly` the condition for a block size.
- A backslash in a pattern becomes a separator before matching, so escapes never
  have an effect (`GlobSpec.EscapesAreSeparators`).

## Model

The first 32 rows are the main results. The others are the lemmas they rest on and the methods that run,
by subject.

| member | source | states |
|---|---|---|
| FileListTheorem.RoundTripsExactly | crates/rsync-protocol/src/flist.rs:684-875 | for every option set and every list the writer accepts, the protocol-31 reader gives back the same entries (hard-link groups renamed) and exactly the bytes that followed, trailing id lists consumed, if and only if the list is `Faithful`, a condition on the entries and options alone |
| FileListTheorem.HardLinkPartition | crates/rsync-protocol/src/flist.rs:1082-1111 | a faithful list written in any batches and read back: two linked entries share a group exactly when they did before, across batches too, and no entry gains or loses a group |
| FileListTheorem.BatchesAreOne | crates/rsync-protocol/src/flist.rs:684-834 | however many batches a list is cut into, the bytes or the error are those of one batch |
| FileListTheorem.DecodedListsAreSafe | crates/rsync-protocol/src/flist.rs:1012-1288 | for arbitrary bytes, a list the reader accepts has at most the allowed number of entries, safe relative UTF-8 paths within the length limit, modes that agree with types, and every link points back to an equal earlier file |
| FileList27.RoundTripsExactly | crates/rsync-protocol/src/flist.rs:430-620 | a protocol-27 list that could be written is read back, with nothing left over, if and only if every entry is one the wire carries |
| SyncMirror.MirrorTheorem | crates/rsync-fs/src/sync.rs:392-567 | any run with deletion on, comparing contents or always copying, from files and directories into a place neither inside nor around them: it succeeds, the destination becomes equal to the source in paths, kinds, bytes and kept times, whatever stood there and whenever deletion comes, and nothing outside changes but directories made on the way |
| SyncMirror.MirrorSpares | crates/rsync-fs/src/sync.rs:392-567 | the same run under any protections: the destination becomes the source beside exactly the entries protection saves, left as they were: those under nothing unprotected and under no incoming file |
| SyncSettled.SecondRunIsQuiet | crates/rsync-fs/src/sync.rs:1413-1463 | after such a run a second one by contents, sizes, or kept times changes nothing, writes nothing and deletes nothing |
| SyncSettled.MirrorIsSettled | crates/rsync-fs/src/sync.rs:392-567 | a run over a mirror is quiet under every delete mode, limit, protection and size bound |
| SyncDryRun.DryRunChangesNothing | crates/rsync-fs/src/sync.rs:392-567 | with dry-run set, for all options and all filesystems, the filesystem is as before |
| SyncDryRunTheorem.DryRunPredicts | crates/rsync-fs/src/sync.rs:392-567 | in every delete mode and under every limit, exactly when the dry run foretells the real one: no source file is misjudged (finds something other than a file at its target, and the options make that matter) and, for a last delete pass, that pass is foretold (`LateForetold`); an early pass is always foretold, its error included |
| SyncDeletes.SurvivesExactly | crates/rsync-fs/src/sync.rs:1973-2036 | limited or not, and whatever is missing already: a path survives a delete pass if and only if it lies at or below none of the first max-delete unprotected entries that are there; a protected entry goes with an unprotected directory above it |
| SyncStages.PassIsSafe | crates/rsync-fs/src/sync.rs:1938-2009 | a real delete pass only removes, keeps every path the source has and all outside the destination, and deletes at most max-delete times |
| SyncTree.SyncTree | crates/rsync-fs/src/sync.rs:392-567 | the whole run: filesystem, report and error are those of the specification, in every option and error case modelled |
| TokenTheorem.TokenStreamRoundTrip | crates/rsync-protocol/src/session.rs:199-455 | for every sequence of files of literals and copies and any lawful codec: writing succeeds exactly when all block numbers fit i32, and the reader then consumes the whole stream and says the same bytes and copies in the same places, then the end, file by file |
| TokenFrames.TokensSay | crates/rsync-protocol/src/session.rs:381-455 | for any stream, the tokens returned one at a time say exactly what its frames say: held-back flags, pending runs and sync tails included |
| Multiplex.MultiplexIsTransparent | crates/rsync-protocol/src/session.rs:1321-1345 | through any data and message frames and any read sizes, readers sharing one state return the data payloads in a row, with the messages before the last data read recorded in order |
| Multiplex.ReadsJoin | crates/rsync-protocol/src/session.rs:1321-1345 | over any bytes whatever, reading n and then m is reading n + m: data, messages, place and errors |
| Multiplex.WriterIsUndone | crates/rsync-protocol/src/session.rs:1353-1387 | exactly when writing succeeds, and that reading then gives the buffer back with nothing left over |
| Delta.RestoresExactly | crates/rsync-delta/src/matcher.rs:16-50 | one call, any checksums: signing, matching and applying always succeeds and gives as many bytes as the target has, and it gives the target if and only if, wherever the greedy walk stops at a match, the signed block is the window (`Honest`) |
| Delta.LosslessExactly | crates/rsync-delta/src/matcher.rs:16-50 | with a given block size, every target is restored from every basis if and only if no two different blocks of one length, up to that size, share both sums |
| DeltaEngine.SignatureIndex.FindMatch | crates/rsync-delta/src/matcher.rs:81-108 | the hashed, length-ordered index finds exactly what searching all signatures finds, and nothing only if nothing matches |
| RollSum.RollingIsRecomputing | crates/rsync-delta/src/rollsum.rs:9-39 | sliding a non-empty window any number of bytes gives the state computed afresh, in 16-bit arithmetic over signed bytes |
| GlobSpec.GlobAtMeans | crates/rsync-filter/src/matcher.rs:130-280 | the walk accepts exactly the texts that can be cut into parts fitting the pattern's pieces: soundness and completeness of star, double star, question mark, classes, escapes and literals |
| FilterRule.PatternMeans | crates/rsync-filter/src/rule.rs:240-270 | what a pattern accepts, without renormalising: the whole path if anchored, any run of final components with a separator or double star, else the last component; plus the tree rule |
| FileListBatches.BatchesAreTheList | crates/rsync-protocol/src/flist.rs:157-214 | for any list, pushing it entry by entry and finishing succeeds exactly when every single entry fits the allocation limit; then the batches are the list in order, numbered without a gap, each within both limits, and only the last is final |
| FileListBatches.BatchesFeedReceiver | crates/rsync-fs/src/sync.rs:197-238 | the receiver accepts all batches of a list exactly when every path stays inside the tree; it then holds indexes 0 to n - 1 and the list's paths and directories, and is not ready to delete before the last batch |
| IndexCodec.StreamRoundTrip | crates/rsync-protocol/src/io.rs:173-256 | any accepted sequence of indexes is read back exactly, with equal final states and the rest of the stream left |
| Varint.VarintRoundTrip | crates/rsync-protocol/src/io.rs:62-111 | exactly the values up to i32::MAX are written, in at most five bytes, and each is read back with the suffix untouched |
| Varint.VarlongRoundTripsExactly | crates/rsync-protocol/src/io.rs:113-171 | exactly when a varlong of a given minimum width is written, that it takes at most eight bytes, and exactly which are read back |
| RemoteShell.QuotingIsUndone | crates/rsync-transport/src/remote_shell.rs:163-239 | for every non-empty argument list, parsing the space-joined quotings gives back the program and the arguments |
| Sparse.SparseHoles | crates/rsync-winfs/src/metadata.rs:523-542 | holes non-empty, in order and apart, and with the ranges an exact partition of the file, with no overflow |
| FileListTheorem.MissingXattrs | crates/rsync-protocol/src/flist.rs:1368-1384 | with fake-super but without xattrs the reader looks for payloads the writer did not send, so no list but the empty one comes back |
| FileListExamples.StaleNames | crates/rsync-protocol/src/flist.rs:1168-1179 | two files of one user, the second without a user name: accepted by the writer, not read back as written |
| FileListExamples.DisagreeingLinks | crates/rsync-protocol/src/flist.rs:1096-1112 | two members of one link group with different lengths: accepted by the writer, not read back as written |
| FileListExact.InStep | crates/rsync-protocol/src/flist.rs:684-834 | after every prefix of kept entries the writer and the reader remember the same path, mode, times and owners, and the reader's link groups are the writer's table |
| FileListRoundTrip.EntryReadsBack | crates/rsync-protocol/src/flist.rs:1047-1276 | one entry, from coupled states: the reader makes of the writer's bytes exactly the entry `Received`, whatever follows them |
| FileListWriter.SplitIndependence | crates/rsync-protocol/src/flist.rs:684-834 | writing entries in any split into batches gives the bytes, the error and the final writer state of one batch |
| FileListWriter.FlagBits | crates/rsync-protocol/src/flist.rs:700-769 | every test the reader makes on a flag word recovers the flag the writer set, and a word with a flag is never the end marker |
| FileListCodec.Rsync31FileListWriter.WriteBatch | crates/rsync-protocol/src/flist.rs:684-834 | a batch appends the encoding of its entries from the state held and leaves the state they leave; if it breaks off at an entry, all entries before that are out and remembered, nothing is taken back, and the error is that entry's; after finishing it is refused without a byte |
| FileListCodec.Rsync31FileListWriter.WriteEntry | crates/rsync-protocol/src/flist.rs:696-831 | one entry appends its encoding from the remembered path, mode, times, owners and link table, and updates all of them; a refused one changes nothing but the link table |
| FileListCodec.Rsync31FileListWriter.MakeFlags | crates/rsync-protocol/src/flist.rs:700-757 | the flag word says what repeats, what is inherited and which names follow, as the specification decides them |
| FileListCodec.Rsync31FileListWriter.RecordEntryState | crates/rsync-protocol/src/flist.rs:853-874 | the whole new state after an entry: what is replaced, and what stays under options that do not carry it |
| FileListCodec.Rsync31FileListWriter.Finish | crates/rsync-protocol/src/flist.rs:836-851 | the end marker, the error count and the id lists the options call for, once |
| FileListCodec.WriteTimes | crates/rsync-protocol/src/flist.rs:783-807 | length, times and mode as flags and options call for them |
| FileListCodec.WriteIds | crates/rsync-protocol/src/flist.rs:808-819 | ids and names as flags and options call for them |
| FileListCodec.WritePayload | crates/rsync-protocol/src/flist.rs:903-954 | access-control and extended-attribute payloads |
| FileListCodec.WriteXattr | crates/rsync-protocol/src/flist.rs:937-951 | one attribute, or the error its name or size earns |
| FileListCodec.ReadPath | crates/rsync-protocol/src/flist.rs:1047-1081 | the path rebuilt from the last one and the suffix read, or the error for a prefix or length out of bounds, for bytes that are no UTF-8, or for an unsafe path |
| FileListCodec.ReadTimes | crates/rsync-protocol/src/flist.rs:1113-1152 | length, times and mode, taken from the stream or repeated, or an error when there is nothing to repeat |
| FileListCodec.ReadOwners | crates/rsync-protocol/src/flist.rs:1153-1214 | access time, owner, group and checksum |
| FileListCodec.ReadEntry | crates/rsync-protocol/src/flist.rs:1047-1256 | one entry, fresh or copied from the link it refers to |
| FileListCodec.ReadFileList | crates/rsync-protocol/src/flist.rs:1012-1288 | the reading loop equals the specification reader on every input: entries, error and place in the stream |
| FileEntry.CommonPrefixLen | crates/rsync-protocol/src/flist.rs:1541-1547 | a shared prefix of at most 255 bytes |
| FileEntry.ToWirePath | crates/rsync-protocol/src/flist.rs:1479-1481 | a path of the same length without backslashes, equal to the original exactly when that had none |
| FileList27.SplitIndependence | crates/rsync-protocol/src/flist.rs:430-492 | any split into protocol-27 batches gives the bytes of one batch |
| FileList27.EntryReads | crates/rsync-protocol/src/flist.rs:534-616 | one entry comes back as itself exactly when its type agrees with its mode, its checksum is there when sent, it has no links or metadata, and its path is acceptable |
| FileListCodec27.Rsync27FileListWriter.WriteBatch | crates/rsync-protocol/src/flist.rs:430-492 | a batch appends its encoding and leaves the state of its last entry; if it breaks off at an entry, all before that are out and remembered; after finishing it is refused |
| FileListCodec27.Rsync27FileListWriter.WriteEntry | crates/rsync-protocol/src/flist.rs:442-489 | one entry appends its encoding and is remembered; a refused one is not |
| FileListCodec27.Rsync27FileListWriter.Finish | crates/rsync-protocol/src/flist.rs:494-501 | one end marker, once |
| FileListCodec27.ReadEntry | crates/rsync-protocol/src/flist.rs:534-616 | one entry rebuilt from the one before, or the error it earns |
| FileListCodec27.ReadFileList | crates/rsync-protocol/src/flist.rs:511-620 | the reading loop equals the specification reader on every input |
| FileListBatches.TooLargeDropsBatch | crates/rsync-protocol/src/flist.rs:157-174 | an entry that is too large takes the batch waiting before it out of the builder, unreturned, its numbers used up |
| FileListBatches.FileListBatchBuilder.PushEntry | crates/rsync-protocol/src/flist.rs:157-174 | what one push returns and leaves waiting, error included |
| FileListBatches.FileListBatchBuilder.Finish | crates/rsync-protocol/src/flist.rs:176-178 | the rest as a final batch, nothing left waiting |
| FileListBatches.FileListBatchBuilder.New | crates/rsync-protocol/src/flist.rs:137-155 | a zero batch size is refused, anything else gives an empty builder |
| FileListBatches.EntryAlloc | crates/rsync-protocol/src/flist.rs:260-275 | the saturating size estimate of an entry |
| Varint.OneByteVarlongFails | crates/rsync-protocol/src/io.rs:113-171 | with a one-byte minimum the value 2^49 is written but not read back |
| Varint.WriteVarint | crates/rsync-protocol/src/io.rs:84-111 | the in-place packing equals the code word, or the error leaves the sink alone |
| Varint.WriteVarlong | crates/rsync-protocol/src/io.rs:144-171 | the in-place packing equals the code word, or the error leaves the sink alone |
| Varint.ReadVarint | crates/rsync-protocol/src/io.rs:62-82 | reading equals the decoder on every input |
| Varint.ReadVarlong | crates/rsync-protocol/src/io.rs:113-142 | reading equals the decoder on every input |
| IndexCodec.IndexRoundTrip | crates/rsync-protocol/src/io.rs:173-256 | one accepted index, positive, negative or DONE, is read back from a reader in the same state, which ends in the writer's state |
| IndexCodec.RefusedExactly | crates/rsync-protocol/src/io.rs:214-256 | exactly which sequences of indexes the writer accepts |
| IndexCodec.IndexState.Write | crates/rsync-protocol/src/io.rs:214-256 | writes the code word of an index and moves to its state, or returns its error |
| IndexCodec.IndexState.Read | crates/rsync-protocol/src/io.rs:173-212 | reads an index and moves to its state, or returns the error |
| Lengths.LongRoundTrip | crates/rsync-protocol/src/flist.rs:1447-1477 | exactly the numbers up to i64::MAX are written, and each is read back with the suffix untouched |
| Lengths.WriteLong | crates/rsync-protocol/src/flist.rs:1447-1456 | writes the short or the long form, or refuses |
| Lengths.ReadLong | crates/rsync-protocol/src/flist.rs:1458-1477 | reading equals the decoder on every input |
| Lengths.VstringRoundTrip | crates/rsync-protocol/src/io.rs:293-322 | a string that fits the wire comes back exactly when it is within the reader's limit |
| Lengths.WriteVstring | crates/rsync-protocol/src/io.rs:310-322 | writes the length in one or two bytes and the string, or refuses |
| Lengths.ReadVstring | crates/rsync-protocol/src/io.rs:293-308 | reading equals the decoder on every input |
| MemoryFs.CreateDirAll | crates/rsync-fs/src/walk.rs:443-466 | exactly the missing prefixes become empty directories and nothing present changes |
| MemoryFs.RemoveTree | crates/rsync-fs/src/walk.rs:519-537 | exactly the path and what lies under it is gone |
| MemoryFs.MemoryFileSystem.MakeDirs | crates/rsync-fs/src/walk.rs:443-466 | the walk down from the root makes exactly the missing prefixes |
| MemoryFs.MemoryFileSystem.Write | crates/rsync-fs/src/walk.rs:384-401 | parents made, node replaced, nothing else changed |
| MemoryFs.MemoryFileSystem.CopyFile | crates/rsync-fs/src/walk.rs:417-427 | source read whole, then written; a failing read changes nothing |
| MemoryFs.MemoryFileSystem.Unlink | crates/rsync-fs/src/walk.rs:507-517 | one node that is no directory is removed, or an error changes nothing |
| MemoryFs.MemoryFileSystem.RemoveDirs | crates/rsync-fs/src/walk.rs:519-537 | collecting keys and removing them one by one takes exactly the subtree; the root is refused |
| MemoryFs.MemoryFileSystem.Touch | crates/rsync-fs/src/walk.rs:561-569 | the time of one node, or an error |
| MemoryFs.AncestorsAreDirs | crates/rsync-fs/src/walk.rs:443-466 | in a filesystem that hangs together, every ancestor of a node is a directory that is there |
| SyncDryRunTheorem.LateForetoldExactly | crates/rsync-fs/src/sync.rs:553-562 | without a limit, a last delete pass is foretold if and only if no entry due for deletion lies under a file on its way in |
| SyncDryRunTheorem.DryRunMisleads | crates/rsync-fs/src/sync.rs:1432-1437 | with existing-only set and an empty directory in a file's place, dry run and real run report differently |
| SyncPrediction.PassesAgree | crates/rsync-fs/src/sync.rs:1973-2008 | a dry pass that finds everything and a real one that misses some entries say the same, report and error, if and only if nothing is missing that the limit lets the dry pass meet and, if the limit stops the dry pass, the first entry left is unprotected |
| SyncMisjudged.StepsWeigh | crates/rsync-fs/src/sync.rs:463-546 | if a file is misjudged, the dry transfer loop says strictly more of the files coming in than the real one, so that no later stretch can hide it |
| SyncDeletes.DeletesWithinLimit | crates/rsync-fs/src/sync.rs:1973-2006 | no pass, dry or real, failing or not, reports more deletions than allowed |
| SyncProgress.ProgressNext | crates/rsync-fs/src/sync.rs:463-546 | the invariant of the transfer loop: no step fails, none changes anything off its target, earlier directories stand, the source is untouched |
| SyncEffects.StepEffect | crates/rsync-fs/src/sync.rs:463-530 | one step of a real run, its parent in place: no error, nothing off the target changed, the tree still hangs together |
| SyncEffects.ClearEffect | crates/rsync-fs/src/sync.rs:1578-1629 | making way removes the whole subtree or nothing and never fails inside the destination |
| SyncTree.SyncDirectories | crates/rsync-fs/src/sync.rs:425-567 | stages in order: destination made, early deletes, transfers, late deletes, directory times |
| SyncTree.TransferAndRecover | crates/rsync-fs/src/sync.rs:531-546 | after a failing transfer, and only then, a last delete pass still runs when errors are ignored |
| SyncTree.RunTransfers | crates/rsync-fs/src/sync.rs:463-546 | the loop in path order equals the specification, says whether it broke off in a transfer, and keeps the directories met |
| SyncTree.PreserveDirectoryMtimes | crates/rsync-fs/src/sync.rs:1274-1284 | directory times from the deepest end of the list backwards |
| SyncTree.ApplyReceiverDeletes | crates/rsync-fs/src/sync.rs:1938-2009 | telling the receiver the source, planning and carrying out equals the specified delete pass |
| SyncTree.CarryOut | crates/rsync-fs/src/sync.rs:1973-2008 | decisions carried out in turn, missing entries passed over, the limit respected |
| SyncTree.PlanIsSpec | crates/rsync-fs/src/sync.rs:252-301 | the receiver's sorted plan visits exactly the entries the specification visits, in its order |
| SyncTree.SyncSingleFile | crates/rsync-fs/src/sync.rs:760-825 | one file onto a target, or into a directory under its own name |
| SyncTree.EnsureMissingDestinationParentAllowed | crates/rsync-fs/src/sync.rs:737-753 | which missing parents are errors |
| SyncTree.DeleteReceiverEntry | crates/rsync-fs/src/sync.rs:2011-2036 | one deletion reported and, in a real run, done |
| SyncEngine.SyncEntry | crates/rsync-fs/src/sync.rs:463-530 | one source entry equals its specified step, and a failure is told apart by whether the transfer failed |
| SyncEngine.RemoveConflictingTarget | crates/rsync-fs/src/sync.rs:1578-1629 | a node of another kind is removed or protected |
| SyncEngine.FileNeedsUpdate | crates/rsync-fs/src/sync.rs:1413-1463 | the update decision in every mode and with every bound |
| SyncEngine.TransferFile | crates/rsync-fs/src/sync.rs:989-1022 | report, copy, then time |
| SyncEngine.PreserveTransferredMtime | crates/rsync-fs/src/sync.rs:1251-1272 | the time of a transferred file or a directory |
| SyncEngine.PreserveExistingFileMtime | crates/rsync-fs/src/sync.rs:1465-1490 | the time of a file that is up to date |
| SyncEngine.CollectRelativeEntries | crates/rsync-fs/src/sync.rs:1650-1704 | recursion over listings gathers exactly the nodes below, at their relative paths |
| SyncEngine.RelativeEntries | crates/rsync-fs/src/sync.rs:1631-1648 | collection returns exactly the entries of the tree, or the listing's error |
| SyncReceiver.IncrementalReceiverState.ObserveBatch | crates/rsync-fs/src/sync.rs:197-230 | a batch out of turn is refused untouched; otherwise entries are taken in up to the first bad path |
| SyncReceiver.IncrementalReceiverState.PlanDeletes | crates/rsync-fs/src/sync.rs:252-301 | nothing before the final batch; then a permutation of the absent entries, each decided, in deletion order |
| SyncReceiver.PlanCovers | crates/rsync-fs/src/sync.rs:252-301 | a plan decides exactly the receiver entries the source has not named |
| SyncReceiver.DescendantsFirst | crates/rsync-fs/src/sync.rs:267-278 | in a plan every descendant comes before its ancestors |
| SyncReceiver.NormalizeRelativePath | crates/rsync-fs/src/sync.rs:304-319 | current-directory components go; paths that leave the tree or name nothing are refused |
| SyncReceiver.SortForDeletion | crates/rsync-fs/src/sync.rs:271-278 | a permutation in deletion order |
| TokenTheorem.CopyGoes | crates/rsync-protocol/src/session.rs:220-254 | the coupling across one copy: run states agree at run boundaries, runs never exceed 65536 blocks, and what was waiting plus the copy is what comes out plus what now waits |
| TokenTheorem.LiteralAdvances | crates/rsync-protocol/src/session.rs:199-204 | the coupling across one literal of any length, in chunks |
| TokenTheorem.EndGoes | crates/rsync-protocol/src/session.rs:216-254 | at the end of a file all that was waiting is said and both ends start afresh |
| TokenTheorem.RunDecodes | crates/rsync-protocol/src/session.rs:256-299 | a waiting run always fits its frame and decodes to its copies, relative or absolute, single or counted |
| TokenTheorem.SyncGoes | crates/rsync-protocol/src/session.rs:301-347 | a sync flush is sent without its tail, and the reader owes exactly that tail |
| TokenTheorem.DataDecodes | crates/rsync-protocol/src/session.rs:349-356 | compressed bytes cut into frames are decoded to what they bring out of the decompressor |
| TokenStored.StoredIsLawful | crates/rsync-protocol/src/session.rs:301-347 | the laws asked of the codec can be met |
| TokenCodec.RsyncDeflatedTokenWriter.SendToken | crates/rsync-protocol/src/session.rs:220-254 | state and bytes after one token |
| TokenCodec.RsyncDeflatedTokenWriter.SendLiteral | crates/rsync-protocol/src/session.rs:199-204 | a literal in chunks of 32 KiB |
| TokenCodec.RsyncDeflatedTokenWriter.SendCopy | crates/rsync-protocol/src/session.rs:206-214 | a copy, refused beyond i32 |
| TokenCodec.RsyncDeflatedTokenWriter.Finish | crates/rsync-protocol/src/session.rs:216-218 | the end of a file |
| TokenCodec.RsyncDeflatedTokenWriter.WritePendingRun | crates/rsync-protocol/src/session.rs:256-299 | the run frame, or the error for a run out of range |
| TokenCodec.RsyncDeflatedTokenWriter.WriteDeflated | crates/rsync-protocol/src/session.rs:301-347 | what the compressor puts out, a flush without its tail |
| TokenCodec.WriteDataChunks | crates/rsync-protocol/src/session.rs:349-356 | frames of at most 16383 bytes |
| TokenCodec.RsyncDeflatedTokenReader.NextToken | crates/rsync-protocol/src/session.rs:381-455 | token, state and place in the stream equal the specification on every input |
| TokenCodec.RsyncDeflatedTokenReader.ResetFile | crates/rsync-protocol/src/session.rs:485-492 | every field of the reader back at its start |
| Multiplex.FramesRead | crates/rsync-protocol/src/session.rs:1321-1345 | exactly where reading n bytes leaves the stream and the state |
| MultiplexCodec.MultiplexedReader.Read | crates/rsync-protocol/src/session.rs:1321-1345 | the reading loop equals the specification |
| MultiplexCodec.ReadNextFrame | crates/rsync-protocol/src/session.rs:1507-1546 | messages recorded, errors returned, the next data frame opened |
| MultiplexCodec.MultiplexedWriter.Write | crates/rsync-protocol/src/session.rs:1353-1373 | frames of the given size, or the error |
| MultiplexCodec.TrimLineEnds | crates/rsync-protocol/src/session.rs:1526-1528 | trailing line ends gone |
| Delta.DeltaRestores | crates/rsync-delta/src/apply.rs:15-44 | a check on one basis and one target that is enough: no signed block and no window of its length differ while sharing both sums |
| Delta.CollisionLoses | crates/rsync-delta/src/matcher.rs:16-50 | two colliding blocks, no longer than the block size, are a basis and a target that are not restored |
| Delta.DeltaShape | crates/rsync-delta/src/matcher.rs:16-50 | whatever the checksums, token lengths add up to the target, no literal is empty and no two literals touch |
| Delta.SignaturesCover | crates/rsync-delta/src/signature.rs:71-96 | the signed blocks in order are the basis, numbered from zero |
| Delta.SignaturesSpeak | crates/rsync-delta/src/signature.rs:71-96 | every signature is of a non-empty block of the basis with its two checksums |
| Delta.BestIsUnique | crates/rsync-delta/src/matcher.rs:81-108 | there is only one longest, earliest match |
| DeltaEngine.SignatureIndex.FindOfLength | crates/rsync-delta/src/matcher.rs:88-104 | the first match of one length, or that there is none |
| DeltaEngine.GenerateSignatures | crates/rsync-delta/src/signature.rs:71-96 | the chunking loop gives the specified signatures, or refuses block size zero |
| DeltaEngine.GenerateDelta | crates/rsync-delta/src/matcher.rs:16-50 | the matching loop ends and gives the specified tokens |
| DeltaEngine.ApplyDelta | crates/rsync-delta/src/apply.rs:15-44 | output or error of the specified application |
| DeltaEngine.Transfer | crates/rsync-delta/src/matcher.rs:16-50 | the three methods in turn, with any checksum: block size zero is refused; else the target comes back exactly on an honest walk, so always when no block clashes with a window |
| RollSum.RollOnce | crates/rsync-delta/src/rollsum.rs:25-35 | the same for one byte, any window |
| RollSum.RollingChecksum.Roll | crates/rsync-delta/src/rollsum.rs:25-35 | the new sums after one byte out and one in |
| RollSum.RollingChecksumOf | crates/rsync-delta/src/rollsum.rs:50-52 | the loop computes the digest of the block |
| GlobSpec.GlobMatchesMeans | crates/rsync-filter/src/matcher.rs:123-128 | the same for the entry point, both sides normalised |
| GlobSpec.UnclosedItems | crates/rsync-filter/src/matcher.rs:239-271 | without a closing bracket there is no class |
| GlobSpec.EscapesAreSeparators | crates/rsync-filter/src/matcher.rs:103-121 | no backslash survives normalisation, so an escape never reaches the matcher |
| GlobSpec.NormalStays | crates/rsync-filter/src/matcher.rs:103-121 | what is normal already is left as it is |
| GlobMatcher.GlobMatchesAt | crates/rsync-filter/src/matcher.rs:130-161 | the memoised recursion answers as the walk does and every remembered entry is right |
| GlobMatcher.MatchStar | crates/rsync-filter/src/matcher.rs:163-193 | the star loop finds a stretch exactly when there is one |
| GlobMatcher.MatchClass | crates/rsync-filter/src/matcher.rs:211-230 | class, or literal bracket |
| GlobMatcher.ParseCharacterClass | crates/rsync-filter/src/matcher.rs:239-271 | the class loop equals the specified parse |
| GlobMatcher.NormalizeFilterPath | crates/rsync-filter/src/matcher.rs:103-121 | the loop over characters normalises |
| GlobMatcher.MatchGlob | crates/rsync-filter/src/matcher.rs:123-128 | the answer is the declarative meaning |
| FilterRule.DeeperStillMatches | crates/rsync-filter/src/rule.rs:240-270 | an unanchored match persists at any depth, except by the tree rule |
| FilterRule.Parse | crates/rsync-filter/src/rule.rs:184-218 | the parsed pattern or the error |
| FilterRule.PatternMatches | crates/rsync-filter/src/rule.rs:240-270 | the decision for a path and kind |
| FilterRule.AnySuffixMatches | crates/rsync-filter/src/rule.rs:473-475 | some suffix at a component boundary matches |
| FilterRule.NormalizeCandidatePath | crates/rsync-filter/src/rule.rs:459-471 | the path held against a pattern |
| FilterRule.RuleSet.DecideForSide | crates/rsync-filter/src/matcher.rs:81-92 | the first rule that applies decides, merge directives skipped, else include |
| FilterRule.RuleSet.Push | crates/rsync-filter/src/matcher.rs:52-58 | a clear-list rule empties the list |
| RemoteShell.QuotedIsWord | crates/rsync-transport/src/remote_shell.rs:227-239 | between words, the quoting of any value is read as that value |
| RemoteShell.ParseRemoteShellCommand | crates/rsync-transport/src/remote_shell.rs:163-215 | the character loop equals the specified lexer, errors included |
| Sparse.ValidateSparseRanges | crates/rsync-winfs/src/metadata.rs:497-521 | accepts exactly the lists of non-empty ranges within the file, pairwise in order and apart, though it compares neighbours only |

## Left out

- FileListTheorem.RoundTripsExactly: is about entries as they are in memory: names are UTF-8, and there are fewer than 2^31 extended attributes, each with a name shorter than 2^31 bytes; beyond that 32-bit lengths would wrap. A path that is no UTF-8 is not faithful; that the writer sends it lossily converted is not modelled.
- FileListCodec.Rsync31FileListWriter.WriteEntry: when an entry is refused, how many of its own bytes are already out is not said.
- FileListCodec.Rsync31FileListWriter.WriteBatch: the same, of the entry it broke off at.
- FileListCodec.WriteTimes: the same, of the fields before the refused one.
- FileListCodec.WriteIds: the same.
- FileListCodec.WritePayload: the same.
- FileListCodec.WriteXattr: the same.
- FileListCodec27.Rsync27FileListWriter.WriteEntry: the same.
- FileListCodec27.Rsync27FileListWriter.WriteBatch: the same.
- FileListBatches.EntryAlloc: a path counts by its bytes; the lengthening of a path that is no UTF-8 by lossy conversion is not modelled.
- Varint.WriteVarlong: the subtraction that underflows for values from 2^56 on is an error in the model, as it is in a build with overflow checks; a build without them wraps it.
- MultiplexCodec.TrimLineEnds: messages are bytes; the replacement of bytes that are no UTF-8 is not modelled.
- SyncMirror.MirrorTheorem: is about files and directories, with nothing protected and no entry kept back by sizes, times or limits. What the engine does under those options is stated by SyncMirror.MirrorSpares, SyncTree.SyncTree and the deletion and dry-run results.
- SyncMirror.MirrorSpares: the same, but for protections.
- SyncDryRunTheorem.DryRunPredicts: is about a directory as source.
- SyncDryRun.DryRunChangesNothing: covers every option of the model, which leaves out the ones listed next.
- SyncTree.SyncTree: symbolic links, hard links, devices, backups, delayed updates, basis directories, fuzzy matching, append, several sources, filters on the source side and deadlines are not modelled; an entry that is neither file nor directory gets a warning.
- SyncTree.PlanIsSpec: the filter rules and the files-from list are the function `protect`.
- MemoryFs.MemoryFileSystem.Write: of a node's metadata only kind, length (that of its bytes) and modification time are kept, and link resolution on the way to a path is not modelled.
- TokenTheorem.TokenStreamRoundTrip: only the form the writer produces.
- TokenCodec.RsyncDeflatedTokenReader.NextToken: the zlib mode, with `observe_copy_data` and its pending queue, is not modelled.
- TokenCodec.RsyncDeflatedTokenWriter.WriteDeflated: the loop around the compressor is one call; that compressed bytes may by chance end in the sync tail within that loop is not modelled.
- RollSum.RollingChecksum.Roll: sums are unbounded before they are cut to 16 bits, so a window too long for 64-bit arithmetic is not modelled.
- Rule prefixes, modifiers and merge files, around the patterns.
- Inflating and deflating, MD4, MD5 and FNV themselves.
- The batch header of protocol 31 and the program's own file-list format: a few fixed fields around the list.
- The local filesystem, Windows and Unix calls, clocks, sleeping and bandwidth limits.
- Option parsing, logging, exit codes, output formats, metadata that cannot be kept.
- Processes, sockets, SSH, the daemon and its greeting.
