/** The two staging encoders: each writes a local file's content to the remote
    staging path. The raw encoder copies the bytes; the record encoder reads
    the file line by line and appends one record with an empty key per line to
    a block-compressed record container. */
module Encoders {
  import opened Options
  import opened Paths
  import opened Stores

  /** The encoder a destination applies to every delivery. */
  datatype Encoder = RawCopy | SequenceRecords(codec: Codec)

  /** The codec a record-encoding destination starts with. */
  const DefaultRecordCodec: Codec := Snappy

  /** The records the record encoder writes for a file's lines: one per line,
      in order, each with the empty key and the line as its value. */
  function RecordsOf(lines: seq<string>): (rs: seq<Record>)
    ensures |rs| == |lines|
    ensures forall i :: 0 <= i < |lines| ==> rs[i] == Record(NullKey, lines[i])
  {
    if lines == [] then [] else [Record(NullKey, lines[0])] + RecordsOf(lines[1..])
  }

  /** Reading a container back: the value of each record, in order. */
  function Values(rs: seq<Record>): seq<string>
  {
    if rs == [] then [] else [rs[0].value] + Values(rs[1..])
  }

  /** Reading back the records written for some lines gives those lines:
      nothing is dropped, duplicated or reordered. */
  lemma {:induction false} ValuesRoundTrip(lines: seq<string>)
    ensures Values(RecordsOf(lines)) == lines
  {
    if lines != [] {
      ValuesRoundTrip(lines[1..]);
      assert RecordsOf(lines)[1..] == RecordsOf(lines[1..]);
    }
  }

  /** Appending the record of the next line extends the records of a prefix
      to the records of the next longer prefix. */
  lemma RecordsOfSnoc(lines: seq<string>, i: nat)
    requires i < |lines|
    ensures RecordsOf(lines[..i + 1]) == RecordsOf(lines[..i]) + [Record(NullKey, lines[i])]
  {
    var a, b := RecordsOf(lines[..i + 1]), RecordsOf(lines[..i]) + [Record(NullKey, lines[i])];
    assert |a| == |b|;
    forall k | 0 <= k < |a| ensures a[k] == b[k] {
      assert lines[..i + 1][k] == lines[k];
      if k < i {
        assert lines[..i][k] == lines[k];
      }
    }
  }

  /** What one read of the line reader yields. */
  datatype LineRead = Line(text: string) | EndOfInput | ReadRaised

  /** The `i`-th read (from 0) of a reader over `lines`: that line, the end
      of input once the lines are used up, or an exception when the oracle
      says that read throws. */
  function ReadLine(lines: seq<string>, i: nat, failsAt: Option<nat>): (r: LineRead)
    ensures r == ReadRaised <==> failsAt == Some(i)
    ensures r.Line? <==> i < |lines| && failsAt != Some(i)
    ensures r.Line? ==> r.text == lines[i]
  {
    if failsAt == Some(i) then ReadRaised
    else if i < |lines| then Line(lines[i])
    else EndOfInput
  }

  /** Whether the line loop ends with an exception at step `i`: the read with
      index `i` throws, or the append of line `i` does. */
  predicate StopsAt(lines: seq<string>, o: Oracle, i: nat) {
    o.readFailsAt == Some(i) || (i < |lines| && o.appendFailsAt == Some(i))
  }

  /** How many lines the loop appends: the first step at which it stops, or
      all lines when it reaches the end of input. */
  function StopIndex(lines: seq<string>, o: Oracle): (n: nat)
    ensures n <= |lines|
    ensures forall i :: 0 <= i < n ==> !StopsAt(lines, o, i)
    ensures n < |lines| ==> StopsAt(lines, o, n)
  {
    var r := if o.readFailsAt.Some? && o.readFailsAt.value < |lines| then o.readFailsAt.value else |lines|;
    if o.appendFailsAt.Some? && o.appendFailsAt.value < r then o.appendFailsAt.value else r
  }

  /** The exception the line loop ends with, if any. A read comes before the
      append of the same line, so a failing read at the stopping step wins. */
  function LoopFault(lines: seq<string>, o: Oracle): (f: Option<Fault>)
    ensures f == None <==> forall i :: 0 <= i <= |lines| ==> !StopsAt(lines, o, i)
    ensures f.Some? ==> f.value == ReadFailed(StopIndex(lines, o)) || f.value == AppendFailed(StopIndex(lines, o))
  {
    var n := StopIndex(lines, o);
    if o.readFailsAt == Some(n) then assert StopsAt(lines, o, n); Some(ReadFailed(n))
    else if n < |lines| then Some(AppendFailed(n))
    else None
  }

  /** How the line loop ends: normally at the end of input, or with its
      exception rethrown wrapped. */
  function LoopStatus(lines: seq<string>, o: Oracle): (s: Status)
    ensures s == Done <==> forall i :: 0 <= i <= |lines| ==> !StopsAt(lines, o, i)
    ensures s.Threw? ==> s.error.wrapped
  {
    match LoopFault(lines, o)
    case None => Done
    case Some(f) => Threw(Error(f, true))
  }

  /** The two shapes of the record encoder's cleanup. As written, a writer
      close that throws leaves the block before the reader close is reached;
      with a nested cleanup the reader close is reached whatever the writer
      close does. */
  datatype FinallyForm = AsWritten | NestedFinally

  /** The cleanup that runs on every exit: close the writer if it was
      created, then the reader if it was opened. An exception thrown by a
      close replaces the one pending, as an exception from a cleanup block
      does. */
  function Finally(st: Stores, tmp: Path, file: File, writerOpen: bool, readerOpen: bool,
                   pending: Status, o: Oracle, form: FinallyForm): (Stores, Status)
  {
    var remote := if writerOpen then st.remote.(writers := st.remote.writers - multiset{tmp}) else st.remote;
    var writerThrew := writerOpen && !o.closeWriter;
    var readerClosed := readerOpen && (form == NestedFinally || !writerThrew);
    var local := if readerClosed then st.local.(readers := st.local.readers - multiset{file}) else st.local;
    var status :=
      if readerClosed && !o.closeReader then Threw(Error(CloseReaderFailed, false))
      else if writerThrew then Threw(Error(CloseWriterFailed, false))
      else pending;
    (Stores(remote, local), status)
  }

  /** The record encoder's effect on both stores and how it ends: create the
      writer (an empty block-compressed container at `tmp`), open the reader,
      append one record per line until the loop stops, then clean up. Any
      exception of the writer creation, the reader opening, a read or an
      append is rethrown wrapped. */
  function RecordEncoding(st: Stores, file: File, tmp: Path, codec: Codec, o: Oracle, form: FinallyForm): (Stores, Status)
  {
    if o.createWriter != CreateOk then
      var after := if o.createWriter == CreateFailsCreated
                   then st.(remote := st.remote.(objects := st.remote.objects[tmp := Container(BlockCompression, codec, [])]))
                   else st;
      Finally(after, tmp, file, false, false, Threw(Error(CreateWriterFailed, true)), o, form)
    else
      var created := st.remote.(objects := st.remote.objects[tmp := Container(BlockCompression, codec, [])],
                                writers := st.remote.writers + multiset{tmp});
      if !(o.openReader && Readable(st.local, file)) then
        Finally(Stores(created, st.local), tmp, file, true, false, Threw(Error(FileNotFound, true)), o, form)
      else
        var lines := st.local.files[file].lines;
        var written := created.(objects := created.objects[tmp := Container(BlockCompression, codec, RecordsOf(lines[..StopIndex(lines, o)]))]);
        var reading := st.local.(readers := st.local.readers + multiset{file});
        Finally(Stores(written, reading), tmp, file, true, true, LoopStatus(lines, o), o, form)
  }

  /** The raw encoder's effect: a verbatim copy that keeps the source. */
  function RawEncoding(st: Stores, file: File, tmp: Path, fault: CopyFault): (Stores, Status)
  {
    CopiedFromLocal(st, false, file, tmp, fault)
  }

  /** The effect of the encoder a destination is configured with; `form`
      is the shape of the record encoder's cleanup. */
  function Encoding(st: Stores, file: File, tmp: Path, enc: Encoder, o: Oracle, form: FinallyForm): (Stores, Status)
  {
    match enc
    case RawCopy => RawEncoding(st, file, tmp, o.copy)
    case SequenceRecords(codec) => RecordEncoding(st, file, tmp, codec, o, form)
  }

  /** Whether an encoding leaves a reader open on `file`: the record encoder
      as written, after it opened the reader, when the writer's close throws. */
  predicate ReaderLeaks(st: Stores, file: File, enc: Encoder, o: Oracle, form: FinallyForm) {
    && form == AsWritten && enc.SequenceRecords?
    && o.createWriter == CreateOk && o.openReader && Readable(st.local, file) && !o.closeWriter
  }

  /** What the staging object holds after an encoding that succeeded. */
  function Encoded(enc: Encoder, data: LocalData): Content
  {
    match enc
    case RawCopy => Bytes(data.bytes)
    case SequenceRecords(codec) => Container(BlockCompression, codec, RecordsOf(data.lines))
  }

  /** Whether every call an encoding makes succeeds. */
  predicate EncodesCleanly(st: Stores, file: File, enc: Encoder, o: Oracle) {
    && Readable(st.local, file)
    && match enc
       case RawCopy => o.copy == CopyOk
       case SequenceRecords(_) =>
         o.createWriter == CreateOk && o.openReader && o.closeWriter && o.closeReader &&
         LoopFault(st.local.files[file].lines, o).None?
  }

  /** The raw encoder: copy the file's bytes to the staging path without
      deleting the source. */
  method CopyRaw(fs: RemoteFs, local: LocalFs, file: File, tmp: Path, fault: CopyFault) returns (s: Status)
    modifies fs, local
    ensures (Stores(fs.State(), local.State()), s) == RawEncoding(Stores(old(fs.State()), old(local.State())), file, tmp, fault)
  {
    s := fs.CopyFromLocalFile(false, local, file, tmp, fault);
  }

  /** The line loop of the record encoder: read line after line and append
      one empty-key record per line to the open writer at `tmp`, until the
      end of input or the first exception. The staging object then holds the
      records of the lines appended so far. */
  method AppendLines(fs: RemoteFs, local: LocalFs, file: File, tmp: Path, codec: Codec, o: Oracle)
    returns (pending: Status)
    requires file in local.files && tmp in fs.writers
    requires tmp in fs.objects && fs.objects[tmp] == Container(BlockCompression, codec, [])
    modifies fs
    ensures var lines := local.files[file].lines;
      && fs.objects == old(fs.objects)[tmp := Container(BlockCompression, codec, RecordsOf(lines[..StopIndex(lines, o)]))]
      && pending == LoopStatus(lines, o)
    ensures fs.writers == old(fs.writers)
  {
    var lines := local.files[file].lines;
    var i := 0;
    pending := Done;
    while true
      invariant i <= StopIndex(lines, o)
      invariant fs.objects == old(fs.objects)[tmp := Container(BlockCompression, codec, RecordsOf(lines[..i]))]
      invariant fs.writers == old(fs.writers)
      invariant pending == Done
      decreases |lines| - i
    {
      var next := ReadLine(lines, i, o.readFailsAt);
      if next.ReadRaised? {
        pending := Threw(Error(ReadFailed(i), true));
        break;
      }
      if next.EndOfInput? {
        break;
      }
      var appended := fs.Append(tmp, Record(NullKey, next.text), o.appendFailsAt != Some(i));
      if !appended {
        pending := Threw(Error(AppendFailed(i), true));
        break;
      }
      RecordsOfSnoc(lines, i);
      i := i + 1;
    }
    assert i == StopIndex(lines, o);
  }

  /** The cleanup of the record encoder: close the writer if it was created,
      then the reader if it was opened; in the as-written form a writer close
      that throws ends the cleanup at once. */
  method CloseResources(fs: RemoteFs, local: LocalFs, tmp: Path, file: File, writerOpen: bool, readerOpen: bool,
                        pending: Status, o: Oracle, form: FinallyForm) returns (s: Status)
    modifies fs, local
    ensures (Stores(fs.State(), local.State()), s)
         == Finally(Stores(old(fs.State()), old(local.State())), tmp, file, writerOpen, readerOpen, pending, o, form)
  {
    s := pending;
    if writerOpen {
      var clean := fs.CloseWriter(tmp, o.closeWriter);
      if !clean {
        s := Threw(Error(CloseWriterFailed, false));
        if form == AsWritten {
          return;
        }
      }
    }
    if readerOpen {
      var clean := local.CloseReader(file, o.closeReader);
      if !clean {
        s := Threw(Error(CloseReaderFailed, false));
      }
    }
  }

  /** The record encoder: create the writer, open the reader, append one
      empty-key record per line read, and close what was opened. */
  method WriteRecords(fs: RemoteFs, local: LocalFs, file: File, tmp: Path, codec: Codec, o: Oracle, form: FinallyForm)
    returns (s: Status)
    modifies fs, local
    ensures (Stores(fs.State(), local.State()), s)
         == RecordEncoding(Stores(old(fs.State()), old(local.State())), file, tmp, codec, o, form)
  {
    ghost var st := Stores(fs.State(), local.State());
    var writerOpen, readerOpen := false, false;
    var pending := Done;
    writerOpen := fs.CreateWriter(tmp, BlockCompression, codec, o.createWriter);
    if !writerOpen {
      pending := Threw(Error(CreateWriterFailed, true));
    } else {
      readerOpen := local.OpenReader(file, o.openReader);
      if !readerOpen {
        pending := Threw(Error(FileNotFound, true));
      } else {
        ghost var lines := local.files[file].lines;
        pending := AppendLines(fs, local, file, tmp, codec, o);
        assert fs.objects == st.remote.objects[tmp := Container(BlockCompression, codec, [])]
                                              [tmp := Container(BlockCompression, codec, RecordsOf(lines[..StopIndex(lines, o)]))];
      }
    }
    assert RecordEncoding(st, file, tmp, codec, o, form)
        == Finally(Stores(fs.State(), local.State()), tmp, file, writerOpen, readerOpen, pending, o, form);
    s := CloseResources(fs, local, tmp, file, writerOpen, readerOpen, pending, o, form);
  }

  /** The encoder a destination is configured with. */
  method Encode(fs: RemoteFs, local: LocalFs, file: File, tmp: Path, enc: Encoder, o: Oracle, form: FinallyForm)
    returns (s: Status)
    modifies fs, local
    ensures (Stores(fs.State(), local.State()), s)
         == Encoding(Stores(old(fs.State()), old(local.State())), file, tmp, enc, o, form)
  {
    match enc
    case RawCopy =>
      s := CopyRaw(fs, local, file, tmp, o.copy);
    case SequenceRecords(codec) =>
      s := WriteRecords(fs, local, file, tmp, codec, o, form);
  }

  /** The records of a prefix of the lines are the same prefix of the
      records: what a loop that stopped early wrote is a prefix of what a
      complete loop writes. */
  lemma RecordsOfPrefix(lines: seq<string>, n: nat)
    requires n <= |lines|
    ensures RecordsOf(lines[..n]) == RecordsOf(lines)[..n]
  {
    var a, b := RecordsOf(lines[..n]), RecordsOf(lines)[..n];
    forall k | 0 <= k < n ensures a[k] == b[k] {
      assert lines[..n][k] == lines[k];
    }
  }

  /** The raw encoder copies the file byte for byte and keeps it: it succeeds
      exactly when the copy does, the staging object then holds the file's
      bytes, a failed copy leaves a prefix of them at most, and the local
      filesystem never changes. */
  lemma RawEncodingFacts(st: Stores, file: File, tmp: Path, fault: CopyFault)
    ensures var (st', s) := RawEncoding(st, file, tmp, fault);
      && st'.local == st.local
      && st'.remote.writers == st.remote.writers
      && (s == Done <==> fault == CopyOk && Readable(st.local, file))
      && (s == Done ==> tmp in st'.remote.objects && st'.remote.objects[tmp] == Bytes(st.local.files[file].bytes))
      && (s.Threw? ==> s.error == Error(CopyFailed, false))
  {
  }

  /** The record encoder succeeds exactly when every call it makes does;
      the staging object then is a block-compressed container with the
      configured codec that holds one empty-key record per line, in order. */
  lemma RecordEncodingSucceeds(st: Stores, file: File, tmp: Path, codec: Codec, o: Oracle, form: FinallyForm)
    ensures var (st', s) := RecordEncoding(st, file, tmp, codec, o, form);
      && (s == Done <==> EncodesCleanly(st, file, SequenceRecords(codec), o))
      && (s == Done ==> tmp in st'.remote.objects &&
                        st'.remote.objects[tmp] == Container(BlockCompression, codec, RecordsOf(st.local.files[file].lines)))
  {
    if EncodesCleanly(st, file, SequenceRecords(codec), o) {
      var lines := st.local.files[file].lines;
      assert !StopsAt(lines, o, StopIndex(lines, o));
      assert lines[..|lines|] == lines;
    }
  }

  /** The writer is created before the reader is opened. If the creation
      throws, nothing changes and no reader is opened. If the reader cannot
      be opened, an empty container is left at the staging path, the writer is
      still closed, and the encoder throws. */
  lemma WriterBeforeReader(st: Stores, file: File, tmp: Path, codec: Codec, o: Oracle, form: FinallyForm)
    ensures o.createWriter != CreateOk ==>
      var (st', s) := RecordEncoding(st, file, tmp, codec, o, form);
      && st'.remote.objects == (if o.createWriter == CreateFailsUntouched then st.remote.objects
                                else st.remote.objects[tmp := Container(BlockCompression, codec, [])])
      && st'.remote.writers == st.remote.writers
      && st'.local == st.local
      && s == Threw(Error(CreateWriterFailed, true))
    ensures o.createWriter == CreateOk && !(o.openReader && Readable(st.local, file)) ==>
      var (st', s) := RecordEncoding(st, file, tmp, codec, o, form);
      && st'.remote.objects == st.remote.objects[tmp := Container(BlockCompression, codec, [])]
      && st'.remote.writers == st.remote.writers
      && st'.local == st.local
      && s == Threw(if o.closeWriter then Error(FileNotFound, true) else Error(CloseWriterFailed, false))
  {
  }

  /** Once the writer and the reader are open, the staging object ends up
      holding the records of the lines appended before the loop stopped,
      which is a prefix of the records of all lines: partial content stays in
      place when the loop throws. */
  lemma PartialRecordsStay(st: Stores, file: File, tmp: Path, codec: Codec, o: Oracle, form: FinallyForm)
    requires o.createWriter == CreateOk && o.openReader && Readable(st.local, file)
    ensures var (st', s) := RecordEncoding(st, file, tmp, codec, o, form);
      var lines := st.local.files[file].lines;
      var n := StopIndex(lines, o);
      && st'.remote.objects == st.remote.objects[tmp := Container(BlockCompression, codec, RecordsOf(lines)[..n])]
      && (LoopFault(lines, o).Some? ==> s.Threw?)
  {
    RecordsOfPrefix(st.local.files[file].lines, StopIndex(st.local.files[file].lines, o));
  }

  /** A file with no lines gives a container with no records: the loop body
      never runs, but the writer was created, so the container exists. */
  lemma EmptyInputNoRecords(st: Stores, file: File, tmp: Path, codec: Codec, o: Oracle, form: FinallyForm)
    requires o.createWriter != CreateFailsUntouched && Readable(st.local, file) && st.local.files[file].lines == []
    ensures var (st', s) := RecordEncoding(st, file, tmp, codec, o, form);
      && tmp in st'.remote.objects
      && st'.remote.objects[tmp] == Container(BlockCompression, codec, [])
  {
  }

  /** Every exception of the writer creation, the reader opening, a read or
      an append leaves the encoder wrapped in a new I/O exception; only an
      exception of a close in the cleanup escapes unwrapped. */
  lemma RecordEncodingErrors(st: Stores, file: File, tmp: Path, codec: Codec, o: Oracle, form: FinallyForm)
    ensures var (st', s) := RecordEncoding(st, file, tmp, codec, o, form);
      s.Threw? ==>
        && (s.error.wrapped <==> s.error.fault != CloseWriterFailed && s.error.fault != CloseReaderFailed)
        && (s.error.wrapped ==>
              s.error.fault in {CreateWriterFailed, FileNotFound} || s.error.fault.ReadFailed? || s.error.fault.AppendFailed?)
  {
  }

  /** The record encoder touches only the staging object and never the local
      files, and the writer it opens is always closed again. */
  lemma RecordEncodingFrame(st: Stores, file: File, tmp: Path, codec: Codec, o: Oracle, form: FinallyForm)
    ensures var (st', s) := RecordEncoding(st, file, tmp, codec, o, form);
      && (forall p :: p != tmp ==> SameAt(st'.remote.objects, st.remote.objects, p))
      && st'.remote.writers == st.remote.writers
      && st'.local.files == st.local.files
  {
    var (st', s) := RecordEncoding(st, file, tmp, codec, o, form);
    if o.createWriter == CreateOk {
      var created := st.remote.(objects := st.remote.objects[tmp := Container(BlockCompression, codec, [])],
                                writers := st.remote.writers + multiset{tmp});
      assert created.writers - multiset{tmp} == st.remote.writers;
      if !(o.openReader && Readable(st.local, file)) {
        FinallyFrame(Stores(created, st.local), tmp, file, true, false, Threw(Error(FileNotFound, true)), o, form);
        assert st'.remote.objects == st.remote.objects[tmp := Container(BlockCompression, codec, [])];
      } else {
        var lines := st.local.files[file].lines;
        var c := Container(BlockCompression, codec, RecordsOf(lines[..StopIndex(lines, o)]));
        var written := created.(objects := created.objects[tmp := c]);
        var reading := st.local.(readers := st.local.readers + multiset{file});
        FinallyFrame(Stores(written, reading), tmp, file, true, true, LoopStatus(lines, o), o, form);
        assert st'.remote.objects == st.remote.objects[tmp := c];
      }
    }
  }

  /** The cleanup changes no object and no local file; it releases the
      writer handle exactly when the writer was created. */
  lemma FinallyFrame(st: Stores, tmp: Path, file: File, writerOpen: bool, readerOpen: bool,
                     pending: Status, o: Oracle, form: FinallyForm)
    ensures var (st', _) := Finally(st, tmp, file, writerOpen, readerOpen, pending, o, form);
      && st'.remote.objects == st.remote.objects
      && st'.local.files == st.local.files
      && st'.remote.writers == if writerOpen then st.remote.writers - multiset{tmp} else st.remote.writers
  {
  }

  /** As written, the reader stays open exactly when it was opened and the
      writer's close threw: the exception leaves the cleanup before the
      reader's close. */
  lemma ReaderReleaseAsWritten(st: Stores, file: File, tmp: Path, codec: Codec, o: Oracle)
    ensures var (st', s) := RecordEncoding(st, file, tmp, codec, o, AsWritten);
      st'.local.readers ==
        if o.createWriter == CreateOk && o.openReader && Readable(st.local, file) && !o.closeWriter
        then st.local.readers + multiset{file}
        else st.local.readers
  {
  }

  /** A concrete run of the as-written encoder that leaks the reader: a
      readable one-line file, every call succeeding except the writer's
      close. */
  lemma ReaderLeakAsWritten()
    ensures var file := File("/in", "input.txt");
      var st := Stores(Remote(map[], multiset{}), Local(map[file := LocalData(true, [], ["a"])], multiset{}));
      var tmp := StagingPath("/out", "input.txt");
      var (st', s) := RecordEncoding(st, file, tmp, Snappy, Cooperative.(closeWriter := false), AsWritten);
      && s == Threw(Error(CloseWriterFailed, false))
      && st'.local.readers == multiset{file}
  {
    var file := File("/in", "input.txt");
    var st := Stores(Remote(map[], multiset{}), Local(map[file := LocalData(true, [], ["a"])], multiset{}));
    ReaderReleaseAsWritten(st, file, StagingPath("/out", "input.txt"), Snappy, Cooperative.(closeWriter := false));
  }

  /** When the writer's close throws after the reader was opened, the
      writer's exception is the one that escapes as written; with the nested
      cleanup an exception of the reader's close supersedes it. */
  lemma CloseFaultPrecedence(st: Stores, file: File, tmp: Path, codec: Codec, o: Oracle, form: FinallyForm)
    requires o.createWriter == CreateOk && o.openReader && Readable(st.local, file) && !o.closeWriter
    ensures RecordEncoding(st, file, tmp, codec, o, form).1 ==
      Threw(Error(if form == NestedFinally && !o.closeReader then CloseReaderFailed else CloseWriterFailed, false))
  {
  }

  /** With the nested cleanup the reader opened by the encoder is closed on
      every exit path, whatever the closes answer. */
  lemma ReaderReleased(st: Stores, file: File, tmp: Path, codec: Codec, o: Oracle)
    ensures RecordEncoding(st, file, tmp, codec, o, NestedFinally).0.local.readers == st.local.readers
  {
  }

  /** What the configured encoder does, for the protocol's use: it changes
      only the staging object, leaves local files and writer handles as they
      were, leaves the readers as they were unless it leaks one, succeeds
      exactly when all its calls do, and then leaves the file's encoding at
      the staging path. */
  lemma EncodingFacts(st: Stores, file: File, tmp: Path, enc: Encoder, o: Oracle, form: FinallyForm)
    ensures var (st', s) := Encoding(st, file, tmp, enc, o, form);
      && (forall p :: p != tmp ==> SameAt(st'.remote.objects, st.remote.objects, p))
      && st'.local.files == st.local.files
      && st'.local.readers == (if ReaderLeaks(st, file, enc, o, form) then st.local.readers + multiset{file}
                               else st.local.readers)
      && st'.remote.writers == st.remote.writers
      && (s == Done <==> EncodesCleanly(st, file, enc, o))
      && (s == Done ==> tmp in st'.remote.objects && st'.remote.objects[tmp] == Encoded(enc, st.local.files[file]))
  {
    match enc
    case RawCopy =>
      RawEncodingFacts(st, file, tmp, o.copy);
    case SequenceRecords(codec) =>
      RecordEncodingSucceeds(st, file, tmp, codec, o, form);
      RecordEncodingFrame(st, file, tmp, codec, o, form);
      if form == AsWritten {
        ReaderReleaseAsWritten(st, file, tmp, codec, o);
      } else {
        ReaderReleased(st, file, tmp, codec, o);
      }
  }

  /** An encoder throws only the faults of its own calls, never one of the
      rename or the deletes that follow it. */
  lemma EncodingFaults(st: Stores, file: File, tmp: Path, enc: Encoder, o: Oracle, form: FinallyForm)
    ensures var (_, s) := Encoding(st, file, tmp, enc, o, form);
      s.Threw? ==>
        && !s.error.fault.CantRename?
        && s.error.fault !in {RenameRaised, DeleteStagingRaised, DeleteLocalRaised}
  {
    match enc
    case RawCopy =>
      RawEncodingFacts(st, file, tmp, o.copy);
    case SequenceRecords(codec) =>
      RecordEncodingErrors(st, file, tmp, codec, o, form);
  }

  /** Under the cooperative oracle every encoding of a readable file
      succeeds. */
  lemma CooperativeEncodes(st: Stores, file: File, enc: Encoder)
    requires Readable(st.local, file)
    ensures EncodesCleanly(st, file, enc, Cooperative)
  {
  }
}
