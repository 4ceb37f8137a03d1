/** The delivery protocol of a directory destination: encode the local file to
    a staging path, publish it by renaming staging to final, then delete the
    local file; every exception after the preconditions is turned into a
    delivery failure that carries the original file, for retry. */
module Delivery {
  import opened Options
  import opened Paths
  import opened Stores
  import opened Encoders

  /** Why a delivery is refused before any remote call: no file, a file that
      does not exist or cannot be read, a destination whose directory was
      never set (the path derivation dereferences it), or a staging or final
      path that cannot be built from the directory and the file name. These
      are thrown as they are, not as delivery failures. */
  datatype Rejection = NullFile | Unreadable(file: File) | NoDirectory | InvalidPath

  /** How a delivery ends. `Failed` is the delivery exception: it carries the
      original file as its payload and the exception that caused it. */
  datatype Outcome =
    | Delivered
    | Failed(payload: File, cause: Error)
    | Rejected(reason: Rejection)

  /** What a delivery logs without failing. */
  datatype Diagnostic =
    | StagingNotCleaned(staging: Path)
    | LocalNotDeleted(file: File, destination: Path)

  datatype Level = Warning | ErrorLevel

  /** A staging object left behind is a warning (the next attempt rewrites
      it); a local file left behind after publishing is an error (it may be
      delivered again). */
  function LevelOf(d: Diagnostic): Level
  {
    match d
    case StagingNotCleaned(_) => Warning
    case LocalNotDeleted(_, _) => ErrorLevel
  }

  /** The stores after a delivery, how it ended, and what it logged. */
  datatype Result = Result(stores: Stores, outcome: Outcome, diagnostics: seq<Diagnostic>)

  /** Whether a delivery passes its preconditions and enters the protocol. */
  predicate Admitted(st: Stores, directory: Option<string>, file: Option<File>) {
    && file.Some? && Readable(st.local, file.value) && directory.Some?
    && PathsAccepted(directory.value, file.value.name)
  }

  /** The effect of one delivery of `file` to `directory` through encoder
      `enc`, with every backend call answering as `o` says and the record
      encoder's cleanup shaped as `form`. At most one diagnostic is logged: a
      warning only when the delivery fails, an error only when it succeeds. */
  function DeliveryResult(st: Stores, directory: Option<string>, file: Option<File>, enc: Encoder, o: Oracle,
                          form: FinallyForm): (r: Result)
    ensures |r.diagnostics| <= 1
    ensures r.diagnostics != [] ==> (LevelOf(r.diagnostics[0]) == Warning <==> r.outcome.Failed?)
    ensures r.diagnostics != [] ==> (LevelOf(r.diagnostics[0]) == ErrorLevel <==> r.outcome == Delivered)
  {
    if file.None? then Result(st, Rejected(NullFile), [])
    else if !Readable(st.local, file.value) then Result(st, Rejected(Unreadable(file.value)), [])
    else if directory.None? then Result(st, Rejected(NoDirectory), [])
    else if !PathsAccepted(directory.value, file.value.name) then Result(st, Rejected(InvalidPath), [])
    else
      var f := file.value;
      var tmp, dst := StagingPath(directory.value, f.name), FinalPath(directory.value, f.name);
      var (st1, s) := Encoding(st, f, tmp, enc, o, form);
      if s.Threw? then Result(st1, Failed(f, s.error), [])
      else Published(st1, f, tmp, dst, o)
  }

  /** What follows a clean encoding: the rename of the staging object to
      the final path, then either the delete of the staging object (the
      rename returned false) or the delete of the local file (it returned
      true). */
  function Published(st1: Stores, f: File, tmp: Path, dst: Path, o: Oracle): (r: Result)
  {
    var (renamed, remote2) := Renamed(st1.remote, tmp, dst, o.rename);
    match renamed
    case Raised => Result(st1.(remote := remote2), Failed(f, Error(RenameRaised, false)), [])
    case Returned(false) =>
      var (deleted, remote3) := Deleted(st1.remote, tmp, o.deleteStaging);
      var st3 := st1.(remote := remote3);
      (match deleted
       case Raised => Result(st3, Failed(f, Error(DeleteStagingRaised, false)), [])
       case Returned(clean) =>
         Result(st3, Failed(f, Error(CantRename(tmp, dst), false)), if clean then [] else [StagingNotCleaned(tmp)]))
    case Returned(true) =>
      var (gone, local3) := LocalDeleted(st1.local, f, o.deleteLocal);
      var st3 := Stores(remote2, local3);
      (match gone
       case Raised => Result(st3, Failed(f, Error(DeleteLocalRaised, false)), [])
       case Returned(removed) =>
         Result(st3, Delivered, if removed then [] else [LocalNotDeleted(f, dst)]))
  }

  /** The stage after a clean encoding touches no remote object other than
      the staging and final paths, no local file other than the delivered
      one, and no handle. */
  lemma PublishedFrame(st1: Stores, f: File, tmp: Path, dst: Path, o: Oracle)
    ensures var r := Published(st1, f, tmp, dst, o);
      && (forall p :: p != tmp && p != dst ==> SameAt(r.stores.remote.objects, st1.remote.objects, p))
      && (forall g :: g != f ==> SameAt(r.stores.local.files, st1.local.files, g))
      && r.stores.remote.writers == st1.remote.writers
      && r.stores.local.readers == st1.local.readers
  {
  }

  /** A refused rename: with the staging object in place, it is deleted
      if the backend acts, a warning is logged if the delete returns
      false, and the local store is untouched. */
  lemma PublishedRefused(st1: Stores, f: File, tmp: Path, dst: Path, o: Oracle)
    requires tmp in st1.remote.objects && tmp != dst
    requires o.rename == No || (o.rename == Yes && dst in st1.remote.objects)
    ensures var r := Published(st1, f, tmp, dst, o);
      && r.outcome == Failed(f, Error(if o.deleteStaging.Raises? then DeleteStagingRaised else CantRename(tmp, dst), false))
      && (tmp in r.stores.remote.objects <==> !Acts(o.deleteStaging))
      && SameAt(r.stores.remote.objects, st1.remote.objects, dst)
      && r.stores.local == st1.local
      && r.diagnostics == if o.deleteStaging == No then [StagingNotCleaned(tmp)] else []
  {
  }

  /** A destination directory on the remote filesystem. Its encoder stands
      for the choice between the raw destination and the record-container
      destination, whose codec the encoder carries. */
  class DirectoryDestination {
    var directory: Option<string>
    var encoder: Encoder
    const fileSystem: RemoteFs
    ghost var log: seq<Diagnostic>

    /** A raw-copy destination on `fileSystem`; no directory is set yet. */
    constructor (fileSystem: RemoteFs)
      ensures this.fileSystem == fileSystem && directory == None && encoder == RawCopy && log == []
    {
      this.fileSystem := fileSystem;
      directory := None;
      encoder := RawCopy;
      log := [];
    }

    /** A record-container destination on `fileSystem`; its codec starts as
        the default one. */
    constructor SequenceFile(fileSystem: RemoteFs)
      ensures this.fileSystem == fileSystem && directory == None && log == []
      ensures encoder == SequenceRecords(DefaultRecordCodec)
    {
      this.fileSystem := fileSystem;
      directory := None;
      encoder := SequenceRecords(DefaultRecordCodec);
      log := [];
    }

    /** The directory deliveries publish into, unset until configured. */
    function GetDirectory(): Option<string>
      reads this
    {
      directory
    }

    /** Set the directory later deliveries publish into. */
    method SetDirectory(directory: Option<string>)
      modifies this`directory
      ensures GetDirectory() == directory
    {
      this.directory := directory;
    }

    /** The codec of a record-container destination. */
    function GetCompressionCodec(): (c: Codec)
      reads this
      requires encoder.SequenceRecords?
      ensures encoder == SequenceRecords(c)
    {
      encoder.codec
    }

    /** Replace the codec that later encodings of a record-container
        destination use. */
    method SetCompressionCodec(codec: Codec)
      requires encoder.SequenceRecords?
      modifies this`encoder
      ensures encoder.SequenceRecords? && GetCompressionCodec() == codec
    {
      encoder := SequenceRecords(codec);
    }

    /** Deliver `file`: check it, derive the staging and final paths, encode
        to staging, rename staging to final, then delete the local file. The
        record encoder runs its cleanup as written. */
    method Deliver(file: Option<File>, local: LocalFs, o: Oracle) returns (outcome: Outcome)
      modifies fileSystem, local, this`log
      ensures var r := DeliveryResult(Stores(old(fileSystem.State()), old(local.State())), directory, file, encoder, o,
                                      AsWritten);
        && Stores(fileSystem.State(), local.State()) == r.stores
        && outcome == r.outcome
        && log == old(log) + r.diagnostics
    {
      if file.None? {
        return Rejected(NullFile);
      }
      var f := file.value;
      if !local.CanRead(f) {
        return Rejected(Unreadable(f));
      }
      if directory.None? {
        return Rejected(NoDirectory);
      }
      if !PathsAccepted(directory.value, f.name) {
        return Rejected(InvalidPath);
      }
      var tmp := StagingPath(directory.value, f.name);
      var dst := FinalPath(directory.value, f.name);
      ghost var st0 := Stores(fileSystem.State(), local.State());
      var thrown: Option<Error> := None;
      var s := Encode(fileSystem, local, f, tmp, encoder, o, AsWritten);
      ghost var st1 := Stores(fileSystem.State(), local.State());
      assert (st1, s) == Encoding(st0, f, tmp, encoder, o, AsWritten);
      if s.Threw? {
        thrown := Some(s.error);
      } else {
        var renamed := fileSystem.Rename(tmp, dst, o.rename);
        assert (renamed, fileSystem.State()) == Renamed(st1.remote, tmp, dst, o.rename);
        if renamed == Raised {
          thrown := Some(Error(RenameRaised, false));
        } else if renamed == Returned(false) {
          var deleted := fileSystem.Delete(tmp, o.deleteStaging);
          if deleted == Raised {
            thrown := Some(Error(DeleteStagingRaised, false));
          } else {
            if deleted == Returned(false) {
              log := log + [StagingNotCleaned(tmp)];
            }
            thrown := Some(Error(CantRename(tmp, dst), false));
          }
        } else {
          var gone := local.Delete(f, o.deleteLocal);
          if gone == Raised {
            thrown := Some(Error(DeleteLocalRaised, false));
          } else if gone == Returned(false) {
            log := log + [LocalNotDeleted(f, dst)];
          }
        }
      }
      // Every exception of the protocol becomes a delivery failure carrying the file.
      outcome := if thrown.Some? then Failed(f, thrown.value) else Delivered;
    }
  }


  /** A delivery is refused exactly when the file is missing or unreadable,
      the directory is unset, or a path cannot be built, checked in that
      order; a refused delivery makes no call and logs nothing. */
  lemma RejectedBeforeAnyCall(st: Stores, directory: Option<string>, file: Option<File>, enc: Encoder, o: Oracle,
                              form: FinallyForm)
    ensures var r := DeliveryResult(st, directory, file, enc, o, form);
      && (r.outcome.Rejected? <==> !Admitted(st, directory, file))
      && (r.outcome.Rejected? ==>
            && r.stores == st && r.diagnostics == []
            && r.outcome.reason == if file.None? then NullFile
                                   else if !Readable(st.local, file.value) then Unreadable(file.value)
                                   else if directory.None? then NoDirectory
                                   else InvalidPath)
  {
  }

  /** Every failure of an admitted delivery is a delivery failure whose
      payload is the original file, and the local file is still there. */
  lemma FailureCarriesFile(st: Stores, directory: Option<string>, file: Option<File>, enc: Encoder, o: Oracle,
                           form: FinallyForm)
    requires Admitted(st, directory, file)
    ensures var r := DeliveryResult(st, directory, file, enc, o, form);
      && (r.outcome.Delivered? || r.outcome.Failed?)
      && (r.outcome.Failed? ==> r.outcome.payload == file.value && r.stores.local.files == st.local.files)
  {
    var f := file.value;
    EncodingFacts(st, f, StagingPath(directory.value, f.name), enc, o, form);
  }

  /** When the encoder throws, nothing is renamed or deleted: the delivery
      fails with the encoder's exception, the stores are as the encoder left
      them (so the final path and the local files are as they were), and
      nothing is logged. */
  lemma EncodeFailureStops(st: Stores, d: string, f: File, enc: Encoder, o: Oracle, form: FinallyForm)
    requires Admitted(st, Some(d), Some(f))
    requires Encoding(st, f, StagingPath(d, f.name), enc, o, form).1.Threw?
    ensures var r := DeliveryResult(st, Some(d), Some(f), enc, o, form);
      var (st1, s) := Encoding(st, f, StagingPath(d, f.name), enc, o, form);
      && r.outcome == Failed(f, s.error)
      && r.stores == st1
      && SameAt(r.stores.remote.objects, st.remote.objects, FinalPath(d, f.name))
      && r.stores.local.files == st.local.files
      && r.diagnostics == []
  {
    EncodingFacts(st, f, StagingPath(d, f.name), enc, o, form);
  }

  /** When the rename is refused, the staging object is deleted if the
      backend acts, a warning is logged if the delete returns false, and the
      delivery fails either way with the local file left in place. */
  lemma RenameRefusal(st: Stores, d: string, f: File, enc: Encoder, o: Oracle, form: FinallyForm)
    requires Admitted(st, Some(d), Some(f)) && EncodesCleanly(st, f, enc, o)
    requires o.rename == No || (o.rename == Yes && FinalPath(d, f.name) in st.remote.objects)
    ensures var r := DeliveryResult(st, Some(d), Some(f), enc, o, form);
      var tmp, dst := StagingPath(d, f.name), FinalPath(d, f.name);
      && r.outcome == Failed(f, Error(if o.deleteStaging.Raises? then DeleteStagingRaised else CantRename(tmp, dst), false))
      && (tmp in r.stores.remote.objects <==> !Acts(o.deleteStaging))
      && SameAt(r.stores.remote.objects, st.remote.objects, dst)
      && r.stores.local == st.local
      && r.diagnostics == if o.deleteStaging == No then [StagingNotCleaned(tmp)] else []
  {
    var tmp, dst := StagingPath(d, f.name), FinalPath(d, f.name);
    var (st1, s) := Encoding(st, f, tmp, enc, o, form);
    EncodingFacts(st, f, tmp, enc, o, form);
    var r := DeliveryResult(st, Some(d), Some(f), enc, o, form);
    assert r == Published(st1, f, tmp, dst, o);
    assert SameAt(st1.remote.objects, st.remote.objects, dst);
    PublishedRefused(st1, f, tmp, dst, o);
  }


  /** A delivery succeeds exactly when it is admitted, the encoding and the
      rename succeed, and the local delete does not throw. The final object
      then holds the file's encoding, the staging object is gone, and the
      local file is gone unless its delete was refused, which is logged as an
      error and does not fail the delivery. */
  lemma DeliveredExactly(st: Stores, directory: Option<string>, file: Option<File>, enc: Encoder, o: Oracle,
                         form: FinallyForm)
    ensures var r := DeliveryResult(st, directory, file, enc, o, form);
      r.outcome == Delivered <==>
        && Admitted(st, directory, file)
        && EncodesCleanly(st, file.value, enc, o)
        && o.rename == Yes && FinalPath(directory.value, file.value.name) !in st.remote.objects
        && !o.deleteLocal.Raises?
    ensures var r := DeliveryResult(st, directory, file, enc, o, form);
      r.outcome == Delivered ==>
        var f := file.value;
        var tmp, dst := StagingPath(directory.value, f.name), FinalPath(directory.value, f.name);
        && dst in r.stores.remote.objects && r.stores.remote.objects[dst] == Encoded(enc, st.local.files[f])
        && tmp !in r.stores.remote.objects
        && (f in r.stores.local.files <==> o.deleteLocal == No)
        && r.diagnostics == if o.deleteLocal == No then [LocalNotDeleted(f, dst)] else []
  {
    if Admitted(st, directory, file) {
      var f := file.value;
      EncodingFacts(st, f, StagingPath(directory.value, f.name), enc, o, form);
    }
  }

  /** The local file is removed only by a delivery that published it: its
      encoding is then at the final path. No other local file is touched. */
  lemma LocalRemovedOnlyAfterPublish(st: Stores, directory: Option<string>, f: File, enc: Encoder, o: Oracle,
                                     form: FinallyForm)
    ensures var r := DeliveryResult(st, directory, Some(f), enc, o, form);
      && (forall g :: g != f ==> SameAt(r.stores.local.files, st.local.files, g))
      && (f in st.local.files && f !in r.stores.local.files ==>
            && r.outcome == Delivered
            && var dst := FinalPath(directory.value, f.name);
               dst in r.stores.remote.objects && r.stores.remote.objects[dst] == Encoded(enc, st.local.files[f]))
  {
    if Admitted(st, directory, Some(f)) {
      FailureCarriesFile(st, directory, Some(f), enc, o, form);
      DeliveredExactly(st, directory, Some(f), enc, o, form);
      EncodingFacts(st, f, StagingPath(directory.value, f.name), enc, o, form);
    }
  }

  /** A delivery changes no remote object other than its staging and final
      paths and leaves no writer open. It leaves no reader open either,
      except in the record encoder as written, when the writer's close
      throws after the reader was opened. */
  lemma DeliveryFrame(st: Stores, d: string, f: File, enc: Encoder, o: Oracle, form: FinallyForm)
    ensures var r := DeliveryResult(st, Some(d), Some(f), enc, o, form);
      var tmp, dst := StagingPath(d, f.name), FinalPath(d, f.name);
      && (forall p :: p != tmp && p != dst ==> SameAt(r.stores.remote.objects, st.remote.objects, p))
      && r.stores.remote.writers == st.remote.writers
      && r.stores.local.readers ==
           (if Admitted(st, Some(d), Some(f)) && ReaderLeaks(st, f, enc, o, form)
            then st.local.readers + multiset{f} else st.local.readers)
  {
    if Admitted(st, Some(d), Some(f)) {
      var tmp, dst := StagingPath(d, f.name), FinalPath(d, f.name);
      var (st1, s) := Encoding(st, f, tmp, enc, o, form);
      EncodingFacts(st, f, tmp, enc, o, form);
      var r := DeliveryResult(st, Some(d), Some(f), enc, o, form);
      if s.Threw? {
        assert r.stores == st1;
      } else {
        assert r == Published(st1, f, tmp, dst, o);
        PublishedFrame(st1, f, tmp, dst, o);
        forall p | p != tmp && p != dst
          ensures SameAt(r.stores.remote.objects, st.remote.objects, p)
        {
          assert SameAt(r.stores.remote.objects, st1.remote.objects, p);
          assert SameAt(st1.remote.objects, st.remote.objects, p);
        }
      }
    }
  }

  /** A delivery never replaces an object already at the final path: the
      object stays as it was and the delivery does not succeed. */
  lemma DeliveryNoClobber(st: Stores, d: string, f: File, enc: Encoder, o: Oracle, form: FinallyForm)
    requires FinalPath(d, f.name) in st.remote.objects
    ensures var r := DeliveryResult(st, Some(d), Some(f), enc, o, form);
      && SameAt(r.stores.remote.objects, st.remote.objects, FinalPath(d, f.name))
      && r.outcome != Delivered
  {
    if Admitted(st, Some(d), Some(f)) {
      var tmp, dst := StagingPath(d, f.name), FinalPath(d, f.name);
      var (st1, s) := Encoding(st, f, tmp, enc, o, form);
      EncodingFacts(st, f, tmp, enc, o, form);
      var r := DeliveryResult(st, Some(d), Some(f), enc, o, form);
      assert SameAt(st1.remote.objects, st.remote.objects, dst);
      if s.Threw? {
        assert r.stores == st1;
      } else {
        var (renamed, remote2) := Renamed(st1.remote, tmp, dst, o.rename);
        var (_, remote3) := Deleted(st1.remote, tmp, o.deleteStaging);
        assert remote2 == st1.remote;
        if renamed == Returned(false) {
          assert r.stores.remote == remote3;
          assert SameAt(remote3.objects, st1.remote.objects, dst);
        } else {
          assert r.stores.remote == st1.remote;
        }
      }
    }
  }

  /** A local delete that throws after the rename published the file is
      still turned into a delivery failure, although the final object
      exists and the local file stays. */
  lemma PublishedThenDeleteThrows(st: Stores, d: string, f: File, enc: Encoder, o: Oracle, form: FinallyForm)
    requires Admitted(st, Some(d), Some(f)) && EncodesCleanly(st, f, enc, o)
    requires o.rename == Yes && FinalPath(d, f.name) !in st.remote.objects && o.deleteLocal.Raises?
    ensures var r := DeliveryResult(st, Some(d), Some(f), enc, o, form);
      && r.outcome == Failed(f, Error(DeleteLocalRaised, false))
      && FinalPath(d, f.name) in r.stores.remote.objects
      && r.stores.remote.objects[FinalPath(d, f.name)] == Encoded(enc, st.local.files[f])
      && r.stores.local == st.local
  {
    EncodingFacts(st, f, StagingPath(d, f.name), enc, o, form);
  }

  /** A rename that takes effect on the server and then throws on the
      client also fails the delivery, although the final object holds the
      encoding, the staging object is gone and the local file stays. */
  lemma RenameAppliedThenThrows(st: Stores, d: string, f: File, enc: Encoder, o: Oracle, form: FinallyForm)
    requires Admitted(st, Some(d), Some(f)) && EncodesCleanly(st, f, enc, o)
    requires o.rename == Raises(true) && FinalPath(d, f.name) !in st.remote.objects
    ensures var r := DeliveryResult(st, Some(d), Some(f), enc, o, form);
      && r.outcome == Failed(f, Error(RenameRaised, false))
      && FinalPath(d, f.name) in r.stores.remote.objects
      && r.stores.remote.objects[FinalPath(d, f.name)] == Encoded(enc, st.local.files[f])
      && StagingPath(d, f.name) !in r.stores.remote.objects
      && r.stores.local == st.local
  {
    EncodingFacts(st, f, StagingPath(d, f.name), enc, o, form);
  }

  /** A failed delivery leaves an object at a previously free final path
      exactly when it published and then threw: the local delete threw, or
      the rename took effect and then threw. The local files are as they
      were either way. */
  lemma FailurePublishedExactly(st: Stores, d: string, f: File, enc: Encoder, o: Oracle, form: FinallyForm)
    requires Admitted(st, Some(d), Some(f)) && FinalPath(d, f.name) !in st.remote.objects
    requires DeliveryResult(st, Some(d), Some(f), enc, o, form).outcome.Failed?
    ensures var first := DeliveryResult(st, Some(d), Some(f), enc, o, form);
      var fault := first.outcome.cause.fault;
      && first.stores.local.files == st.local.files
      && (FinalPath(d, f.name) in first.stores.remote.objects <==>
            fault == DeleteLocalRaised || (fault == RenameRaised && o.rename == Raises(true)))
  {
    var tmp, dst := StagingPath(d, f.name), FinalPath(d, f.name);
    var r := DeliveryResult(st, Some(d), Some(f), enc, o, form);
    var (st1, s) := Encoding(st, f, tmp, enc, o, form);
    EncodingFacts(st, f, tmp, enc, o, form);
    assert SameAt(st1.remote.objects, st.remote.objects, dst);
    if s.Threw? {
      EncodingFaults(st, f, tmp, enc, o, form);
      assert r.stores == st1 && r.outcome == Failed(f, s.error);
    } else {
      var (renamed, remote2) := Renamed(st1.remote, tmp, dst, o.rename);
      var (_, remote3) := Deleted(st1.remote, tmp, o.deleteStaging);
      if renamed == Returned(true) {
        assert r.stores.remote == remote2;
      } else if renamed == Raised {
        assert r.stores == st1.(remote := remote2);
      } else {
        assert r.stores == st1.(remote := remote3);
        assert SameAt(remote3.objects, st1.remote.objects, dst);
      }
    }
  }

  /** Retrying a failed delivery with the same file succeeds once every call
      succeeds, without any cleanup of the staging object in between, and
      publishes the file's encoding, whenever the failure left the final
      path free. */
  lemma RetryRecovers(st: Stores, d: string, f: File, enc: Encoder, o: Oracle, form: FinallyForm)
    requires Admitted(st, Some(d), Some(f)) && FinalPath(d, f.name) !in st.remote.objects
    requires DeliveryResult(st, Some(d), Some(f), enc, o, form).outcome.Failed?
    requires FinalPath(d, f.name) !in DeliveryResult(st, Some(d), Some(f), enc, o, form).stores.remote.objects
    ensures var first := DeliveryResult(st, Some(d), Some(f), enc, o, form);
      var retry := DeliveryResult(first.stores, Some(d), Some(f), enc, Cooperative, form);
      && retry.outcome == Delivered
      && FinalPath(d, f.name) in retry.stores.remote.objects
      && retry.stores.remote.objects[FinalPath(d, f.name)] == Encoded(enc, st.local.files[f])
      && f !in retry.stores.local.files
  {
    var first := DeliveryResult(st, Some(d), Some(f), enc, o, form);
    FailurePublishedExactly(st, d, f, enc, o, form);
    CooperativeEncodes(first.stores, f, enc);
    DeliveredExactly(first.stores, Some(d), Some(f), enc, Cooperative, form);
  }

  /** After a failure that published the file (a thrown local delete, or a
      rename that took effect and then threw), no retry of the same file
      succeeds, since the final path is occupied. */
  lemma RetryAfterPublishRefused(st: Stores, d: string, f: File, enc: Encoder, o: Oracle, o2: Oracle,
                                 form: FinallyForm)
    requires Admitted(st, Some(d), Some(f)) && FinalPath(d, f.name) !in st.remote.objects
    requires DeliveryResult(st, Some(d), Some(f), enc, o, form).outcome.Failed?
    requires var fault := DeliveryResult(st, Some(d), Some(f), enc, o, form).outcome.cause.fault;
      fault == DeleteLocalRaised || (fault == RenameRaised && o.rename == Raises(true))
    ensures var first := DeliveryResult(st, Some(d), Some(f), enc, o, form);
      DeliveryResult(first.stores, Some(d), Some(f), enc, o2, form).outcome != Delivered
  {
    var first := DeliveryResult(st, Some(d), Some(f), enc, o, form);
    FailurePublishedExactly(st, d, f, enc, o, form);
    DeliveryNoClobber(first.stores, d, f, enc, o2, form);
  }

  /** With every call succeeding, delivering the only local file into an
      empty remote store leaves exactly its encoding at the final path and
      no local file, and logs nothing. */
  lemma SoleFileDelivered(st: Stores, d: string, f: File, enc: Encoder, form: FinallyForm)
    requires Admitted(st, Some(d), Some(f))
    requires st.remote.objects == map[] && st.local.files.Keys == {f}
    ensures var r := DeliveryResult(st, Some(d), Some(f), enc, Cooperative, form);
      && r.outcome == Delivered
      && r.stores.remote.objects == map[FinalPath(d, f.name) := Encoded(enc, st.local.files[f])]
      && r.stores.local.files == map[]
      && r.diagnostics == []
  {
    var r := DeliveryResult(st, Some(d), Some(f), enc, Cooperative, form);
    var dst := FinalPath(d, f.name);
    CooperativeEncodes(st, f, enc);
    DeliveredExactly(st, Some(d), Some(f), enc, Cooperative, form);
    DeliveryFrame(st, d, f, enc, Cooperative, form);
    assert forall p :: p in r.stores.remote.objects ==> p == dst || p == StagingPath(d, f.name);
    LocalRemovedOnlyAfterPublish(st, Some(d), f, enc, Cooperative, form);
    assert forall g :: g in r.stores.local.files ==> g == f;
  }

  /** Delivering the file "a\nb\nc\n" through a record-container
      destination publishes a container with three records in order, and
      removes the local file. */
  lemma ThreeLineScenario()
    ensures var f := File("/in", "input.txt");
      var st := Stores(Remote(map[], multiset{}),
                       Local(map[f := LocalData(true, [97, 10, 98, 10, 99, 10], ["a", "b", "c"])], multiset{}));
      var r := DeliveryResult(st, Some("/out"), Some(f), SequenceRecords(Snappy), Cooperative, AsWritten);
      && r.outcome == Delivered
      && r.stores.remote.objects == map[Path("/out", "input.txt") :=
           Container(BlockCompression, Snappy, [Record([], "a"), Record([], "b"), Record([], "c")])]
      && r.stores.local.files == map[]
      && r.diagnostics == []
  {
    var f := File("/in", "input.txt");
    var st := Stores(Remote(map[], multiset{}),
                     Local(map[f := LocalData(true, [97, 10, 98, 10, 99, 10], ["a", "b", "c"])], multiset{}));
    ExamplePathsAccepted();
    assert st.local.files.Keys == {f};
    SoleFileDelivered(st, "/out", f, SequenceRecords(Snappy), AsWritten);
    assert RecordsOf(["a", "b", "c"]) == [Record([], "a"), Record([], "b"), Record([], "c")];
  }

  /** When the final path is already occupied, the rename is refused: the
      staging object is removed, the delivery fails carrying the file, and
      the local file stays. */
  lemma OccupiedDestinationScenario(existing: Content)
    ensures var f := File("/in", "input.txt");
      var st := Stores(Remote(map[Path("/out", "input.txt") := existing], multiset{}),
                       Local(map[f := LocalData(true, [97, 10], ["a"])], multiset{}));
      var r := DeliveryResult(st, Some("/out"), Some(f), SequenceRecords(Snappy), Cooperative, AsWritten);
      && r.outcome == Failed(f, Error(CantRename(Path("/out", "input.txt.tmp"), Path("/out", "input.txt")), false))
      && Path("/out", "input.txt") in r.stores.remote.objects
      && r.stores.remote.objects[Path("/out", "input.txt")] == existing
      && Path("/out", "input.txt.tmp") !in r.stores.remote.objects
      && r.stores.local.files == st.local.files
  {
    var f := File("/in", "input.txt");
    var st := Stores(Remote(map[Path("/out", "input.txt") := existing], multiset{}),
                     Local(map[f := LocalData(true, [97, 10], ["a"])], multiset{}));
    ExamplePathsAccepted();
    ExampleStagingPath();
    CooperativeEncodes(st, f, SequenceRecords(Snappy));
    assert Path("/out", "input.txt") in st.remote.objects;
    RenameRefusal(st, "/out", f, SequenceRecords(Snappy), Cooperative, AsWritten);
    DeliveryNoClobber(st, "/out", f, SequenceRecords(Snappy), Cooperative, AsWritten);
  }

  /** When the local delete is refused after publishing, the delivery still
      succeeds, the final object exists, the local file stays, and one error
      is logged. */
  lemma LocalDeleteRefusedScenario()
    ensures var f := File("/in", "input.txt");
      var st := Stores(Remote(map[], multiset{}), Local(map[f := LocalData(true, [1, 2], [])], multiset{}));
      var r := DeliveryResult(st, Some("/out"), Some(f), RawCopy, Cooperative.(deleteLocal := No), AsWritten);
      && r.outcome == Delivered
      && Path("/out", "input.txt") in r.stores.remote.objects
      && r.stores.remote.objects[Path("/out", "input.txt")] == Bytes([1, 2])
      && f in r.stores.local.files
      && r.diagnostics == [LocalNotDeleted(f, Path("/out", "input.txt"))]
      && LevelOf(r.diagnostics[0]) == ErrorLevel
  {
    var f := File("/in", "input.txt");
    var st := Stores(Remote(map[], multiset{}), Local(map[f := LocalData(true, [1, 2], [])], multiset{}));
    ExamplePathsAccepted();
    DeliveredExactly(st, Some("/out"), Some(f), RawCopy, Cooperative.(deleteLocal := No), AsWritten);
  }

  /** A record-container delivery whose writer close and reader close both
      throw. As written, the writer's exception is the cause and the reader
      stays open; with the nested cleanup the reader's exception is the
      cause and the reader is released. */
  lemma CloseFailuresScenario()
    ensures var f := File("/in", "input.txt");
      var st := Stores(Remote(map[], multiset{}), Local(map[f := LocalData(true, [97, 10], ["a"])], multiset{}));
      var o := Cooperative.(closeWriter := false, closeReader := false);
      var asWritten := DeliveryResult(st, Some("/out"), Some(f), SequenceRecords(Snappy), o, AsWritten);
      var nested := DeliveryResult(st, Some("/out"), Some(f), SequenceRecords(Snappy), o, NestedFinally);
      && asWritten.outcome == Failed(f, Error(CloseWriterFailed, false))
      && asWritten.stores.local.readers == multiset{f}
      && nested.outcome == Failed(f, Error(CloseReaderFailed, false))
      && nested.stores.local.readers == multiset{}
  {
    var f := File("/in", "input.txt");
    var st := Stores(Remote(map[], multiset{}), Local(map[f := LocalData(true, [97, 10], ["a"])], multiset{}));
    var o := Cooperative.(closeWriter := false, closeReader := false);
    var enc, tmp := SequenceRecords(Snappy), StagingPath("/out", "input.txt");
    ExamplePathsAccepted();
    CloseFaultPrecedence(st, f, tmp, Snappy, o, AsWritten);
    CloseFaultPrecedence(st, f, tmp, Snappy, o, NestedFinally);
    EncodeFailureStops(st, "/out", f, enc, o, AsWritten);
    EncodeFailureStops(st, "/out", f, enc, o, NestedFinally);
    DeliveryFrame(st, "/out", f, enc, o, AsWritten);
    DeliveryFrame(st, "/out", f, enc, o, NestedFinally);
  }

}
