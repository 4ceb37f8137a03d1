# fbus delivery protocol, modelled in Dafny

fbus delivers local files into a directory of a distributed filesystem. A
delivery writes the file's encoded content to a staging object
`directory/(name + ".tmp")`, publishes it by renaming it to
`directory/name`, and then deletes the local file. Any exception on the way
is turned into a delivery exception that carries the original file, so the
caller can retry. Two encoders produce the staging object:

- the raw encoder copies the bytes;
- the record encoder reads the file line by line, and appends one record per
  line (empty key, the line as value) to a block-compressed record container.
  Its codec defaults to Snappy.

The model has four modules:

- `Paths` (`paths.dfy`): remote paths and the staging/final naming.
- `Stores` (`stores.dfy`):
  - the remote store, a map from path to content plus the set of open writers;
  - the local store, a map from file to data plus the set of open readers;
  - classes `RemoteFs` and `LocalFs` that update those stores in place;
  - the `Oracle`, which fixes the answer of every backend call (returns
    normally, returns false, throws);
  - the exceptions a delivery can raise.
- `Encoders` (`encoders.dfy`): the two encoders. Each is a method proved
  against a function of the old stores. The record encoder keeps the
  source's `while` loop and its cleanup block.
- `Delivery` (`delivery.dfy`):
  - the `DirectoryDestination` class, with its `directory` and encoder fields
    and a ghost diagnostics log in place of the logger;
  - `Deliver`, proved equal to the specification function `DeliveryResult`;
  - lemmas about `DeliveryResult` for each failure pattern.

The subclass that encodes records becomes a value of `Encoder`:
`RawCopy | SequenceRecords(codec)`. The codec getter and setter act on that
value.

Points where the code's behaviour is easy to misread:

- A local delete that returns false after publishing is only logged. A local
  delete that *throws* is caught by the `catch (Throwable)` and becomes a
  delivery exception, although the file is already published. Every retry
  after that is then refused at the rename. See
  `Delivery.PublishedThenDeleteThrows` and `Delivery.RetryAfterPublishRefused`.
- A failed encoding does not ensure that nothing exists at the final path. It
  leaves the final path as it was (`Delivery.EncodeFailureStops`).
- A destination whose directory was never set fails while the paths are
  derived. That happens outside the `try`, so the failure is not wrapped
  (`Delivery.Rejection.NoDirectory`). The same holds for a file name that
  cannot be turned into a path, such as an empty name or one with a colon
  (`Delivery.Rejection.InvalidPath`, `Paths.ColonNameRefused`).
- The cleanup of the record encoder does not always close both resources. See
  "Findings".

Modelling choices about the backend, which the code does not show:

- A rename succeeds only when the backend agrees, the staging object exists,
  and nothing sits at the final path. A rename that throws may or may not
  have taken effect on the server; the oracle says which. A rename that took
  effect and then threw fails the delivery with the file already published
  (`Delivery.RenameAppliedThenThrows`), and no retry succeeds after it.
- A delete succeeds only when the backend agrees and the object exists. A
  remote delete that throws may have acted first.
- A local delete that throws has not deleted the file.
- A writer creation that throws may or may not have left the empty container
  at the staging path; it never leaves a writer handle open.
- Creating a writer, or copying a file, replaces whatever was at the staging
  path.
- A close releases its handle even when it then throws.
- A path string is refused when it is empty, or when a colon comes before
  its first slash and either the text before the colon is not a URI scheme
  or no absolute path follows it. These are the cases in which the remote
  filesystem's path constructor throws for the strings that a delivery
  builds.

## Model

| member | source | states |
|---|---|---|
| `Paths.FinalPath` | src/main/java/com/cloudera/fbus/HDFSDirectoryDestination.java:43 | the final path lies in the destination directory |
| `Paths.StagingPath` | src/main/java/com/cloudera/fbus/HDFSDirectoryDestination.java:21-42 | the staging path has the same parent as the final path and is never the final path |
| `Paths.SchemeEnd` | src/main/java/com/cloudera/fbus/HDFSDirectoryDestination.java:42-43 | the scheme part of a path string ends at its first colon or slash, or at its end when it has neither |
| `Paths.SchemeEndAt` | src/main/java/com/cloudera/fbus/HDFSDirectoryDestination.java:42-43 | a colon or slash with none before it is exactly where the scheme part ends |
| `Paths.NameAccepted` | src/main/java/com/cloudera/fbus/HDFSDirectoryDestination.java:42-43 | a slash-free name can be turned into a path iff it is non-empty and holds no colon |
| `Paths.PathsAcceptedName` | src/main/java/com/cloudera/fbus/HDFSDirectoryDestination.java:42-43 | both delivery paths can be built iff the directory is accepted and the file name is non-empty and holds no colon |
| `Paths.AbsoluteAccepted` | src/main/java/com/cloudera/fbus/HDFSDirectoryDestination.java:42-43 | an absolute directory path is always accepted |
| `Paths.PathStringAccepted` | src/main/java/com/cloudera/fbus/HDFSDirectoryDestination.java:42-43 | the strings the remote path constructor accepts: non-empty, and a colon before the first slash must end a valid URI scheme that an absolute path follows (properties stated by `NameAccepted`, `AbsoluteAccepted` and the scheme lemmas) |
| `Paths.PathsAccepted` | src/main/java/com/cloudera/fbus/HDFSDirectoryDestination.java:42-43 | both delivery paths can be built: the directory, the staging name and the file name are all accepted (characterised by `PathsAcceptedName`) |
| `Paths.SchemeAbsoluteAccepted` | src/main/java/com/cloudera/fbus/HDFSDirectoryDestination.java:42-43 | any URI scheme, a colon and an absolute path form an accepted path string |
| `Paths.SchemeRelativeRefused` | src/main/java/com/cloudera/fbus/HDFSDirectoryDestination.java:42-43 | any URI scheme, a colon and a relative or empty path form a refused path string |
| `Paths.HdfsSchemeExamples` | src/main/java/com/cloudera/fbus/HDFSDirectoryDestination.java:42-43 | "hdfs:/out" is an accepted directory and "hdfs:out" is refused |
| `Paths.ColonNameRefused` | src/main/java/com/cloudera/fbus/HDFSDirectoryDestination.java:42-43 | a file name holding a time of day such as "report-10:30.txt" cannot be turned into a path |
| `Paths.ExamplePathsAccepted` | src/main/java/com/cloudera/fbus/HDFSDirectoryDestination.java:42-43 | the name "input.txt" under the directory "/out" gives both paths that a delivery builds |
| `Paths.ExampleStagingPath` | src/main/java/com/cloudera/fbus/HDFSDirectoryDestination.java:42 | the staging path of "input.txt" under "/out" is "input.txt.tmp" under "/out" |
| `Paths.StagingPathInjective` | src/main/java/com/cloudera/fbus/HDFSDirectoryDestination.java:42 | two deliveries share a staging path iff they have the same directory and file name |
| `Paths.StagingMeetsFinal` | src/main/java/com/cloudera/fbus/HDFSDirectoryDestination.java:42-43 | one file's staging path is another file's final path iff the other's name is the first's name plus ".tmp" |
| `Stores.Renamed` | src/main/java/com/cloudera/fbus/HDFSDirectoryDestination.java:48 | rename returns true iff the backend agrees, the source is present and the target free; the object then moves and nothing else changes; a refused rename changes nothing; a throwing rename has moved the object or not, as the backend says |
| `Stores.Deleted` | src/main/java/com/cloudera/fbus/HDFSDirectoryDestination.java:49 | a non-recursive delete removes exactly that object when the backend acts on it, and changes nothing otherwise; a throwing delete may have acted first |
| `Stores.LocalDeleted` | src/main/java/com/cloudera/fbus/HDFSDirectoryDestination.java:59 | a local delete removes exactly that file when it returns true, and changes nothing otherwise |
| `Stores.CopiedFromLocal` | src/main/java/com/cloudera/fbus/HDFSDirectoryDestination.java:79 | a copy succeeds iff it is allowed and the source is readable; the target then holds the source's bytes; a failed copy leaves at most a prefix; the source is removed only when delSrc is set and the copy succeeded |
| `Stores.RemoteFs.CopyFromLocalFile` | src/main/java/com/cloudera/fbus/HDFSDirectoryDestination.java:79 | the filesystem's new state and status are those of `CopiedFromLocal` |
| `Stores.RemoteFs.CreateWriter` | src/main/java/com/cloudera/fbus/HDFSSequenceFileDirectoryDestination.java:41 | a created writer leaves an empty container with the given compression and codec and opens one writer handle; a failed creation opens no handle and leaves the empty container or nothing, as the backend says |
| `Stores.RemoteFs.Append` | src/main/java/com/cloudera/fbus/HDFSSequenceFileDirectoryDestination.java:48 | an append adds exactly one record at the end of the container; a failed append changes nothing |
| `Stores.RemoteFs.CloseWriter` | src/main/java/com/cloudera/fbus/HDFSSequenceFileDirectoryDestination.java:54-57 | closing releases one writer handle and leaves the objects unchanged |
| `Stores.RemoteFs.Rename` | src/main/java/com/cloudera/fbus/HDFSDirectoryDestination.java:48 | the filesystem's new state and reply are those of `Renamed` |
| `Stores.RemoteFs.Delete` | src/main/java/com/cloudera/fbus/HDFSDirectoryDestination.java:49 | the filesystem's new state and reply are those of `Deleted` |
| `Stores.LocalFs.CanRead` | src/main/java/com/cloudera/fbus/HDFSDirectoryDestination.java:38 | `file.canRead()`: the file exists and is readable in the local store's current state |
| `Stores.LocalFs.OpenReader` | src/main/java/com/cloudera/fbus/HDFSSequenceFileDirectoryDestination.java:42 | a reader opens iff the call is allowed and the file is readable; it adds one reader handle |
| `Stores.LocalFs.CloseReader` | src/main/java/com/cloudera/fbus/HDFSSequenceFileDirectoryDestination.java:58-61 | closing releases one reader handle and leaves the files unchanged |
| `Stores.LocalFs.Delete` | src/main/java/com/cloudera/fbus/HDFSDirectoryDestination.java:59 | the local store's new state and reply are those of `LocalDeleted` |
| `Encoders.RecordsOf` | src/main/java/com/cloudera/fbus/HDFSSequenceFileDirectoryDestination.java:46-49 | one record per line, same order, every key empty, every value the line's text |
| `Encoders.ValuesRoundTrip` | src/main/java/com/cloudera/fbus/HDFSSequenceFileDirectoryDestination.java:46-49 | reading the values back from the records gives exactly the lines |
| `Encoders.RecordsOfSnoc` | src/main/java/com/cloudera/fbus/HDFSSequenceFileDirectoryDestination.java:47-48 | appending the next line's record turns the records of a prefix into the records of the next prefix |
| `Encoders.RecordsOfPrefix` | src/main/java/com/cloudera/fbus/HDFSSequenceFileDirectoryDestination.java:46-49 | the records of the first n lines are the first n records |
| `Encoders.ReadLine` | src/main/java/com/cloudera/fbus/HDFSSequenceFileDirectoryDestination.java:46 | the i-th read throws iff the oracle says so; otherwise it returns line i while lines remain, and end of input after that |
| `Encoders.StopIndex` | src/main/java/com/cloudera/fbus/HDFSSequenceFileDirectoryDestination.java:46-49 | the loop appends lines up to the first step whose read or append throws, or all lines |
| `Encoders.LoopFault` | src/main/java/com/cloudera/fbus/HDFSSequenceFileDirectoryDestination.java:46-51 | the loop ends with no exception iff no read and no append throws; otherwise it ends with the read or append failure at the stopping step |
| `Encoders.LoopStatus` | src/main/java/com/cloudera/fbus/HDFSSequenceFileDirectoryDestination.java:50-51 | the loop finishes normally iff no step throws; any exception of it is rethrown wrapped |
| `Encoders.Finally` | src/main/java/com/cloudera/fbus/HDFSSequenceFileDirectoryDestination.java:52-62 | the cleanup closes the writer if created, then the reader if opened; a close that throws replaces the pending exception; as written, a throwing writer close skips the reader close (its properties are stated by `FinallyFrame`, `ReaderReleaseAsWritten` and `CloseFaultPrecedence`) |
| `Encoders.RecordEncoding` | src/main/java/com/cloudera/fbus/HDFSSequenceFileDirectoryDestination.java:36-63 | the record encoder's effect: create the writer, open the reader, append one record per line until a step throws, wrap any such exception, then clean up (its properties are stated by the lemmas below) |
| `Encoders.RawEncoding` | src/main/java/com/cloudera/fbus/HDFSDirectoryDestination.java:76-80 | the raw encoder's effect: a copy that keeps the source (its properties are stated by `RawEncodingFacts`) |
| `Encoders.Encoding` | src/main/java/com/cloudera/fbus/HDFSDirectoryDestination.java:46 | the configured encoder's effect, with the record encoder's cleanup in the given form (its properties are stated by `EncodingFacts`) |
| `Encoders.AppendLines` | src/main/java/com/cloudera/fbus/HDFSSequenceFileDirectoryDestination.java:44-49 | after the loop, the staging container holds the records of the lines appended before it stopped; the status is `LoopStatus` |
| `Encoders.CloseResources` | src/main/java/com/cloudera/fbus/HDFSSequenceFileDirectoryDestination.java:52-62 | the handles and status after the cleanup are those of `Finally`, in the form the caller gives |
| `Encoders.WriteRecords` | src/main/java/com/cloudera/fbus/HDFSSequenceFileDirectoryDestination.java:36-63 | the record encoder's new stores and status are those of `RecordEncoding`, in the form the caller gives |
| `Encoders.CopyRaw` | src/main/java/com/cloudera/fbus/HDFSDirectoryDestination.java:76-80 | the raw encoder's new stores and status are those of a copy that keeps the source |
| `Encoders.Encode` | src/main/java/com/cloudera/fbus/HDFSDirectoryDestination.java:46 | the configured encoder's new stores and status are those of `Encoding` in the form the caller gives; the protocol passes the cleanup as written |
| `Encoders.RawEncodingFacts` | src/main/java/com/cloudera/fbus/HDFSDirectoryDestination.java:76-80 | the raw encoder succeeds iff the copy does; the staging object then holds the file's bytes exactly; local files never change |
| `Encoders.RecordEncodingSucceeds` | src/main/java/com/cloudera/fbus/HDFSSequenceFileDirectoryDestination.java:41-49 | the record encoder succeeds iff every call does; staging is then a BLOCK container with the configured codec holding one empty-key record per line |
| `Encoders.WriterBeforeReader` | src/main/java/com/cloudera/fbus/HDFSSequenceFileDirectoryDestination.java:41-42 | a failed writer creation opens no handle, leaves the empty container or nothing at staging, and throws wrapped; a failed reader open leaves an empty container and a closed writer, and throws |
| `Encoders.PartialRecordsStay` | src/main/java/com/cloudera/fbus/HDFSSequenceFileDirectoryDestination.java:46-51 | with writer and reader open, staging ends with the records of the lines appended before the stop, a prefix of all records |
| `Encoders.EmptyInputNoRecords` | src/main/java/com/cloudera/fbus/HDFSSequenceFileDirectoryDestination.java:41-46 | a file with no lines gives an existing container with zero records |
| `Encoders.RecordEncodingErrors` | src/main/java/com/cloudera/fbus/HDFSSequenceFileDirectoryDestination.java:50-51 | exceptions from writer creation, reader open, read or append are rethrown wrapped; only close exceptions escape unwrapped |
| `Encoders.FinallyFrame` | src/main/java/com/cloudera/fbus/HDFSSequenceFileDirectoryDestination.java:52-62 | the cleanup changes no object and no local file, and releases the writer handle iff the writer was created |
| `Encoders.RecordEncodingFrame` | src/main/java/com/cloudera/fbus/HDFSSequenceFileDirectoryDestination.java:36-63 | only the staging object changes; local files never change; the writer handle is always released |
| `Encoders.ReaderReleaseAsWritten` | src/main/java/com/cloudera/fbus/HDFSSequenceFileDirectoryDestination.java:52-62 | as written, the reader stays open iff it was opened and the writer close threw |
| `Encoders.ReaderLeakAsWritten` | src/main/java/com/cloudera/fbus/HDFSSequenceFileDirectoryDestination.java:54-61 | a concrete one-line run whose writer close throws leaves the reader open |
| `Encoders.CloseFaultPrecedence` | src/main/java/com/cloudera/fbus/HDFSSequenceFileDirectoryDestination.java:52-62 | when the writer close throws after the reader opened, the writer's exception escapes as written; with the nested cleanup a throwing reader close supersedes it |
| `Encoders.ReaderReleased` | src/main/java/com/cloudera/fbus/HDFSSequenceFileDirectoryDestination.java:52-62 | with the nested cleanup the reader is released on every exit path |
| `Encoders.EncodingFacts` | src/main/java/com/cloudera/fbus/HDFSDirectoryDestination.java:46 | only the staging object changes; local files and writer handles are unchanged; the readers are unchanged except for the one the as-written record cleanup leaks when the writer close throws; success iff every call succeeds; staging then holds the file's encoding |
| `Encoders.EncodingFaults` | src/main/java/com/cloudera/fbus/HDFSDirectoryDestination.java:46 | an encoder throws only the faults of its own calls, never those of the rename or the deletes |
| `Encoders.CooperativeEncodes` | src/main/java/com/cloudera/fbus/HDFSDirectoryDestination.java:46 | when every call succeeds, every encoding of a readable file succeeds |
| `Delivery.LevelOf` | src/main/java/com/cloudera/fbus/HDFSDirectoryDestination.java:50-67 | a staging object left behind is logged as a warning, a local file left behind after publishing as an error (used by the diagnostics ensures of `DeliveryResult`) |
| `Delivery.Admitted` | src/main/java/com/cloudera/fbus/HDFSDirectoryDestination.java:37-43 | a delivery enters the protocol iff the file is non-null and readable, the directory is set, and both paths can be built (characterised by `RejectedBeforeAnyCall`) |
| `Delivery.DeliveryResult` | src/main/java/com/cloudera/fbus/HDFSDirectoryDestination.java:32-74 | the effect of one delivery: stores, outcome and diagnostics; at most one diagnostic, a warning iff the delivery failed and an error iff it succeeded |
| `Delivery.Published` | src/main/java/com/cloudera/fbus/HDFSDirectoryDestination.java:48-69 | the stage after a clean encoding: rename, then delete the staging object or the local file (its properties are stated by `PublishedFrame` and `PublishedRefused`) |
| `Delivery.PublishedFrame` | src/main/java/com/cloudera/fbus/HDFSDirectoryDestination.java:48-69 | the stage after the encoding touches no remote object but staging and final, no local file but the delivered one, and no handle |
| `Delivery.PublishedRefused` | src/main/java/com/cloudera/fbus/HDFSDirectoryDestination.java:48-57 | a refused rename deletes the staging object if the backend acts, warns if that delete returns false, and fails with the local store untouched |
| `Delivery.DirectoryDestination.constructor` | src/main/java/com/cloudera/fbus/HDFSDirectoryDestination.java:25-30 | a new raw destination has no directory set |
| `Delivery.DirectoryDestination.SequenceFile` | src/main/java/com/cloudera/fbus/HDFSSequenceFileDirectoryDestination.java:29-33 | a new record destination starts with the Snappy codec and no directory |
| `Delivery.DirectoryDestination.GetDirectory` | src/main/java/com/cloudera/fbus/HDFSDirectoryDestination.java:82-84 | the directory deliveries publish into (the round trip is stated by `SetDirectory`) |
| `Delivery.DirectoryDestination.SetDirectory` | src/main/java/com/cloudera/fbus/HDFSDirectoryDestination.java:82-88 | the getter returns the directory last set |
| `Delivery.DirectoryDestination.GetCompressionCodec` | src/main/java/com/cloudera/fbus/HDFSSequenceFileDirectoryDestination.java:65-68 | the getter returns the codec the encoder uses |
| `Delivery.DirectoryDestination.SetCompressionCodec` | src/main/java/com/cloudera/fbus/HDFSSequenceFileDirectoryDestination.java:70-73 | the setter replaces the codec that later encodings use |
| `Delivery.DirectoryDestination.Deliver` | src/main/java/com/cloudera/fbus/HDFSDirectoryDestination.java:32-74 | the new stores, the outcome and the logged diagnostics are those of `DeliveryResult` with the record cleanup as written |
| `Delivery.RejectedBeforeAnyCall` | src/main/java/com/cloudera/fbus/HDFSDirectoryDestination.java:37-43 | a delivery is refused iff the file is null or unreadable, the directory unset, or a path cannot be built; a refusal is not wrapped, changes nothing and logs nothing |
| `Delivery.FailureCarriesFile` | src/main/java/com/cloudera/fbus/HDFSDirectoryDestination.java:70-72 | an admitted delivery either succeeds or fails with the original file as payload, and a failure leaves the local files unchanged |
| `Delivery.EncodeFailureStops` | src/main/java/com/cloudera/fbus/HDFSDirectoryDestination.java:46-48 | if the encoder throws, the delivery fails with that exception; the final path and local files are unchanged; nothing is logged |
| `Delivery.RenameRefusal` | src/main/java/com/cloudera/fbus/HDFSDirectoryDestination.java:48-57 | a refused rename tries to delete the staging object, logs a warning iff that delete returns false, and always fails with the local file in place |
| `Delivery.DeliveredExactly` | src/main/java/com/cloudera/fbus/HDFSDirectoryDestination.java:58-69 | success iff admitted, the encoding succeeds, the rename succeeds and the local delete does not throw; then the final object is the encoding and staging is gone; a refused local delete is logged as an error and does not fail the delivery |
| `Delivery.LocalRemovedOnlyAfterPublish` | src/main/java/com/cloudera/fbus/HDFSDirectoryDestination.java:58-59 | the local file disappears only in a successful delivery whose encoding is at the final path; no other local file changes |
| `Delivery.DeliveryFrame` | src/main/java/com/cloudera/fbus/HDFSDirectoryDestination.java:45-73 | no remote object other than the staging and final paths changes; no writer is left open; a reader is left open exactly when the as-written record cleanup skips its close |
| `Delivery.DeliveryNoClobber` | src/main/java/com/cloudera/fbus/HDFSDirectoryDestination.java:48-57 | an object already at the final path stays as it was, and such a delivery never succeeds |
| `Delivery.PublishedThenDeleteThrows` | src/main/java/com/cloudera/fbus/HDFSDirectoryDestination.java:59-72 | a local delete that throws after publishing still becomes a delivery failure, with the final object present and the local file kept |
| `Delivery.RenameAppliedThenThrows` | src/main/java/com/cloudera/fbus/HDFSDirectoryDestination.java:48-72 | a rename that takes effect and then throws becomes a delivery failure, with the encoding at the final path, staging gone and the local file kept |
| `Delivery.FailurePublishedExactly` | src/main/java/com/cloudera/fbus/HDFSDirectoryDestination.java:45-72 | a failure keeps the local files, and leaves an object at a free final path iff the local delete threw or the rename took effect before throwing |
| `Delivery.RetryRecovers` | src/main/java/com/cloudera/fbus/HDFSDirectoryDestination.java:42-73 | after any failure that left the final path free, a retry with all calls succeeding delivers the encoding without manual cleanup of the staging object |
| `Delivery.RetryAfterPublishRefused` | src/main/java/com/cloudera/fbus/HDFSDirectoryDestination.java:48-72 | after a failure that published the file, no retry of the same file succeeds |
| `Delivery.SoleFileDelivered` | src/main/java/com/cloudera/fbus/HDFSDirectoryDestination.java:45-69 | with all calls succeeding, delivering the only local file into an empty store leaves exactly its encoding at the final path and no local file |
| `Delivery.ThreeLineScenario` | src/main/java/com/cloudera/fbus/HDFSDirectoryDestination.java:45-69 | the file "a\nb\nc\n" delivered through the record encoder gives one container with records a, b, c, and the local file is removed |
| `Delivery.OccupiedDestinationScenario` | src/main/java/com/cloudera/fbus/HDFSDirectoryDestination.java:48-57 | with the final path occupied: the delivery fails carrying the file, the existing object and the local file are kept, and the staging object is removed |
| `Delivery.LocalDeleteRefusedScenario` | src/main/java/com/cloudera/fbus/HDFSDirectoryDestination.java:58-68 | with the local delete refused: delivery succeeds, remote object present, local file kept, one error-level diagnostic |
| `Delivery.CloseFailuresScenario` | src/main/java/com/cloudera/fbus/HDFSSequenceFileDirectoryDestination.java:52-62 | with both closes throwing, the as-written delivery fails with the writer's exception and keeps the reader open; with the nested cleanup it fails with the reader's exception and releases the reader |

## Findings

| source | as written | input that shows it | evidently intended | confidence | as-written member | corrected member |
|---|---|---|---|---|---|---|
| src/main/java/com/cloudera/fbus/HDFSSequenceFileDirectoryDestination.java:52-62 | the cleanup closes the writer and then the reader in one block, so a writer close that throws leaves the block before `reader.close()` | writer created, reader opened, every line appended, `writer.close()` throws | the reader is closed on every exit path, whatever the writer close does | medium, not executed | `Encoders.ReaderLeakAsWritten` | `Encoders.ReaderReleased` |

`Delivery.DirectoryDestination.Deliver` follows the cleanup as written
(`FinallyForm.AsWritten`), so a delivery whose writer close throws leaves the
local reader open (`Delivery.DeliveryFrame`). The corrected cleanup
(`FinallyForm.NestedFinally`) closes the reader on every exit path; the
delivery lemmas hold for both forms, and `Delivery.CloseFailuresScenario`
shows the two side by side.

## Left out

- Hadoop internals are not modelled: `FileSystem`, `Configuration`, the
  record container's binary layout, the serialisation of keys and values,
  and Snappy or any other compression. Remote content is an abstract value:
  bytes, or a list of records with a compression mode and a codec.
- Path normalisation of `new Path(parent, child)` is not modelled. A path is
  the pair (parent, name). The `source` path of the raw copy is the local
  file reference itself.
- The line reader's terminator rules are not modelled. Each local file
  carries the sequence of lines its reader returns, apart from its bytes.
- The reused `Text` buffer is not modelled, nor the block buffering inside
  the writer. An appended record counts as part of the staging object at
  once.
- Exceptions that are not `Exception`s (Java `Error`s) are not modelled. The
  record encoder's `catch (Exception)` would let them through unwrapped, and
  the protocol's `catch (Throwable)` would still wrap them.
- The text of the log messages and the logger are not modelled. A ghost list
  of diagnostics, each with a level, stands in for them.
- How a filesystem handle is obtained (`FileSystem.get(new Configuration())`)
  is not modelled. The destination's constructor takes the remote filesystem
  as an argument.
- Concurrent deliveries are not modelled. Two deliveries of the same file name
  race on the same staging and final paths; the model is sequential.
- Overwrite behaviour of the backend is an assumption of the model, not
  derived from the code. Creating a writer or copying replaces what sits at
  the staging path. A rename onto an occupied final path is refused.
- Windows drive letters, the authority part of a URI and path normalisation
  are not part of the path check; `Paths.PathStringAccepted` covers the empty
  string and the scheme rules only.
- The local source path of the raw copy (`new Path(file.getPath())`) is
  assumed to be accepted. A local path that `Paths.PathStringAccepted`
  refuses (a colon before the first slash with an invalid scheme, or no
  absolute path after it) would make it throw inside the `try`, which the
  model does not cover.
- The record container's compression mode is one of Hadoop's three
  (`NONE`, `RECORD`, `BLOCK`); the code always asks for `BLOCK`.
