/** The stock optional-value wrapper. */
module Options {
  datatype Option<+T> = None | Some(value: T)
}

/** The two stores a delivery works on (the remote distributed filesystem and
    the local filesystem), the answers their calls give, and the exceptions a
    delivery can raise. The backend's own internals are not modelled: each
    call takes its answer (returns normally, returns false, throws) from an
    `Oracle` value, so every branch of the protocol can be stated. */
module Stores {
  import opened Options
  import opened Paths

  /** A local file reference: its parent directory and its name. */
  datatype File = File(parent: string, name: string)

  /** What the local filesystem holds for one file. `lines` is what a line
      reader returns, call by call, before it reports the end of the file;
      splitting the bytes into lines is left to that reader. */
  datatype LocalData = LocalData(readable: bool, bytes: seq<bv8>, lines: seq<string>)

  /** The compression modes of the record container. */
  datatype CompressionType = NoCompression | RecordCompression | BlockCompression

  /** Block compression algorithms; any other codec is named by its class. */
  datatype Codec = Snappy | DefaultCodec | Gzip | BZip2 | Lz4 | Custom(className: string)

  /** The serialised form of the empty key (a null writable writes no bytes). */
  const NullKey: seq<bv8> := []

  /** One key/value record of a record container. */
  datatype Record = Record(key: seq<bv8>, value: string)

  /** A remote object: plain bytes, or a record container with its
      compression mode and codec. */
  datatype Content =
    | Bytes(data: seq<bv8>)
    | Container(compression: CompressionType, codec: Codec, records: seq<Record>)

  /** The remote filesystem: objects by path, and the paths that have an open
      writer (one entry per open writer). */
  datatype Remote = Remote(objects: map<Path, Content>, writers: multiset<Path>)

  /** The local filesystem: files by reference, and the files that have an
      open reader (one entry per open reader). */
  datatype Local = Local(files: map<File, LocalData>, readers: multiset<File>)

  datatype Stores = Stores(remote: Remote, local: Local)

  /** How a backend call that reports success as a boolean answers. A call
      that raises may already have `applied` its effect on the server (a
      time-out after the server acted, say). */
  datatype Answer = Yes | No | Raises(applied: bool)

  /** Whether a call with this answer carries out its effect, provided the
      effect is possible. */
  predicate Acts(answer: Answer) {
    answer == Yes || answer == Raises(true)
  }

  /** What such a call did: returned a boolean, or threw. */
  datatype Reply = Returned(value: bool) | Raised

  /** How the raw copy of a local file to a remote path ends: normally, by
      throwing before anything is written, or by throwing after the first
      `written` bytes are in place. */
  datatype CopyFault = CopyOk | FailsUntouched | FailsPartial(written: nat)

  /** How the creation of a record writer ends: normally, by throwing before
      anything is created, or by throwing after the empty container exists
      (with no writer handed back). */
  datatype CreateFault = CreateOk | CreateFailsUntouched | CreateFailsCreated

  /** The answer of every backend call one delivery makes. */
  datatype Oracle = Oracle(
    copy: CopyFault,               // raw copy to the staging path
    createWriter: CreateFault,     // creation of the record writer
    openReader: bool,              // the local line reader is opened
    readFailsAt: Option<nat>,      // the read call with this index (from 0) throws
    appendFailsAt: Option<nat>,    // the append of the line with this index throws
    closeWriter: bool,             // closing the writer returns normally
    closeReader: bool,             // closing the reader returns normally
    rename: Answer,                // rename of staging to final
    deleteStaging: Answer,         // delete of the staging path
    deleteLocal: Answer)           // delete of the local file

  /** Every call succeeds. */
  const Cooperative: Oracle := Oracle(CopyOk, CreateOk, true, None, None, true, true, Yes, Yes, Yes)

  /** The exceptions of a delivery, by the step that raised them. */
  datatype Fault =
    | CopyFailed
    | CreateWriterFailed
    | FileNotFound
    | ReadFailed(index: nat)
    | AppendFailed(index: nat)
    | CloseWriterFailed
    | CloseReaderFailed
    | CantRename(src: Path, dst: Path)
    | RenameRaised
    | DeleteStagingRaised
    | DeleteLocalRaised

  /** A thrown exception; `wrapped` when it was caught and rethrown as a new
      I/O exception that carries it as its cause. */
  datatype Error = Error(fault: Fault, wrapped: bool)

  /** How a call ended: it returned normally, or it threw. */
  datatype Status = Done | Threw(error: Error)

  /** Whether the local file exists and may be read. */
  predicate Readable(l: Local, f: File) {
    f in l.files && l.files[f].readable
  }

  /** Whether two maps agree at one key: both lack it, or both hold the same
      value. */
  predicate SameAt<K, V(==)>(m1: map<K, V>, m2: map<K, V>, k: K) {
    (k in m1 <==> k in m2) && (k in m1 ==> m1[k] == m2[k])
  }

  /** Rename `src` to `dst`. It moves the object only when the backend acts,
      the source exists and the destination is free; nothing else changes.
      It returns true exactly when it moved the object and did not raise. */
  function Renamed(r: Remote, src: Path, dst: Path, answer: Answer): (res: (Reply, Remote))
    ensures res.0 == Returned(true) <==> answer == Yes && src in r.objects && dst !in r.objects
    ensures res.0 == Raised <==> answer.Raises?
    ensures res.1.writers == r.writers
    ensures Acts(answer) && src in r.objects && dst !in r.objects ==>
      && src != dst
      && src !in res.1.objects && dst in res.1.objects && res.1.objects[dst] == r.objects[src]
      && (forall p :: p != src && p != dst ==> SameAt(res.1.objects, r.objects, p))
    ensures !(Acts(answer) && src in r.objects && dst !in r.objects) ==> res.1 == r
  {
    var moves := Acts(answer) && src in r.objects && dst !in r.objects;
    var r' := if moves then r.(objects := (r.objects - {src})[dst := r.objects[src]]) else r;
    (if answer.Raises? then Raised else Returned(moves), r')
  }

  /** Non-recursive delete of one remote path. It removes the object only
      when the backend acts and the object exists; nothing else changes. It
      returns true exactly when it removed the object and did not raise. */
  function Deleted(r: Remote, p: Path, answer: Answer): (res: (Reply, Remote))
    ensures res.0 == Returned(true) <==> answer == Yes && p in r.objects
    ensures res.0 == Raised <==> answer.Raises?
    ensures res.1.writers == r.writers
    ensures Acts(answer) && p in r.objects ==>
      p !in res.1.objects && forall q :: q != p ==> SameAt(res.1.objects, r.objects, q)
    ensures !(Acts(answer) && p in r.objects) ==> res.1 == r
  {
    var removes := Acts(answer) && p in r.objects;
    (if answer.Raises? then Raised else Returned(removes), if removes then r.(objects := r.objects - {p}) else r)
  }

  /** Delete of a local file. A local delete raises only when it is not
      permitted, before it acts, so a raising delete changes nothing whatever
      `applied` says. */
  function LocalDeleted(l: Local, f: File, answer: Answer): (res: (Reply, Local))
    ensures res.0 == Returned(true) <==> answer == Yes && f in l.files
    ensures res.0 == Raised <==> answer.Raises?
    ensures res.1.readers == l.readers
    ensures res.0 == Returned(true) ==>
      f !in res.1.files && forall g :: g != f ==> SameAt(res.1.files, l.files, g)
    ensures res.0 != Returned(true) ==> res.1 == l
  {
    if answer.Raises? then (Raised, l)
    else if answer == Yes && f in l.files then (Returned(true), l.(files := l.files - {f}))
    else (Returned(false), l)
  }

  /** The bytes a copy that threw after `written` bytes leaves behind. */
  function PartialCopy(bytes: seq<bv8>, written: nat): (r: seq<bv8>)
    ensures |r| <= |bytes| && r == bytes[..|r|]
    ensures written <= |bytes| ==> |r| == written
  {
    if written <= |bytes| then bytes[..written] else bytes
  }

  /** Copy a readable local file verbatim to the remote path `dst`, and delete
      the local source afterwards when `delSrc` is set. On success `dst` holds
      exactly the source's bytes; a copy that throws leaves `dst` untouched
      or holding a prefix of them, and never touches the source. No other
      remote object, and no open handle, changes. */
  function CopiedFromLocal(st: Stores, delSrc: bool, src: File, dst: Path, fault: CopyFault): (res: (Stores, Status))
    ensures res.1 == Done <==> fault == CopyOk && Readable(st.local, src)
    ensures res.1.Threw? ==> res.1.error == Error(CopyFailed, false)
    ensures res.0.remote.writers == st.remote.writers && res.0.local.readers == st.local.readers
    ensures forall p :: p != dst ==> SameAt(res.0.remote.objects, st.remote.objects, p)
    ensures res.1 == Done ==> dst in res.0.remote.objects && res.0.remote.objects[dst] == Bytes(st.local.files[src].bytes)
    ensures res.1.Threw? ==>
      SameAt(res.0.remote.objects, st.remote.objects, dst) ||
      (Readable(st.local, src) && dst in res.0.remote.objects && res.0.remote.objects[dst].Bytes? &&
       var b := st.local.files[src].bytes; var w := res.0.remote.objects[dst].data;
       |w| <= |b| && w == b[..|w|])
    ensures if res.1 == Done && delSrc then res.0.local.files == st.local.files - {src}
            else res.0.local.files == st.local.files
  {
    if !Readable(st.local, src) then (st, Threw(Error(CopyFailed, false)))
    else
      var bytes := st.local.files[src].bytes;
      match fault
      case FailsUntouched => (st, Threw(Error(CopyFailed, false)))
      case FailsPartial(k) =>
        (st.(remote := st.remote.(objects := st.remote.objects[dst := Bytes(PartialCopy(bytes, k))])),
         Threw(Error(CopyFailed, false)))
      case CopyOk =>
        var remote := st.remote.(objects := st.remote.objects[dst := Bytes(bytes)]);
        var local := if delSrc then st.local.(files := st.local.files - {src}) else st.local;
        (Stores(remote, local), Done)
  }

  /** The remote distributed filesystem, updated in place by its calls. */
  class RemoteFs {
    var objects: map<Path, Content>
    var writers: multiset<Path>

    function State(): Remote
      reads this
    {
      Remote(objects, writers)
    }

    constructor (objects: map<Path, Content>)
      ensures State() == Remote(objects, multiset{})
    {
      this.objects := objects;
      writers := multiset{};
    }

    /** Create a record writer at `p`: a new, empty container with the given
        compression mode and codec replaces whatever was at `p`, and `p` gets
        an open writer. A creation that throws hands back no writer; it leaves
        `p` as it was or already holding the empty container. */
    method CreateWriter(p: Path, compression: CompressionType, codec: Codec, fault: CreateFault) returns (created: bool)
      modifies this
      ensures created <==> fault == CreateOk
      ensures objects == if fault == CreateFailsUntouched then old(objects)
                         else old(objects)[p := Container(compression, codec, [])]
      ensures writers == if created then old(writers) + multiset{p} else old(writers)
    {
      created := fault == CreateOk;
      if fault != CreateFailsUntouched {
        objects := objects[p := Container(compression, codec, [])];
      }
      if created {
        writers := writers + multiset{p};
      }
    }

    /** Append one record to the container at `p` through its open writer.
        An append that throws changes nothing. */
    method Append(p: Path, rec: Record, answer: bool) returns (appended: bool)
      requires p in objects && objects[p].Container? && p in writers
      modifies this
      ensures appended == answer && writers == old(writers)
      ensures objects == if appended
        then old(objects)[p := old(objects[p]).(records := old(objects[p]).records + [rec])]
        else old(objects)
    {
      appended := answer;
      if appended {
        objects := objects[p := objects[p].(records := objects[p].records + [rec])];
      }
    }

    /** Close the writer at `p`. The handle is released whether or not the
        close then throws; `clean` is false when it throws. */
    method CloseWriter(p: Path, answer: bool) returns (clean: bool)
      modifies this
      ensures clean == answer
      ensures objects == old(objects) && writers == old(writers) - multiset{p}
    {
      clean := answer;
      writers := writers - multiset{p};
    }

    method Rename(src: Path, dst: Path, answer: Answer) returns (reply: Reply)
      modifies this
      ensures (reply, State()) == Renamed(old(State()), src, dst, answer)
    {
      var res := Renamed(State(), src, dst, answer);
      reply, objects := res.0, res.1.objects;
    }

    /** Non-recursive delete of `p`. */
    method Delete(p: Path, answer: Answer) returns (reply: Reply)
      modifies this
      ensures (reply, State()) == Deleted(old(State()), p, answer)
    {
      var res := Deleted(State(), p, answer);
      reply, objects := res.0, res.1.objects;
    }

    method CopyFromLocalFile(delSrc: bool, local: LocalFs, src: File, dst: Path, fault: CopyFault) returns (s: Status)
      modifies this, local
      ensures (Stores(State(), local.State()), s)
           == CopiedFromLocal(Stores(old(State()), old(local.State())), delSrc, src, dst, fault)
    {
      var res := CopiedFromLocal(Stores(State(), local.State()), delSrc, src, dst, fault);
      objects, local.files, s := res.0.remote.objects, res.0.local.files, res.1;
    }
  }

  /** The local filesystem, updated in place by its calls. */
  class LocalFs {
    var files: map<File, LocalData>
    var readers: multiset<File>

    function State(): Local
      reads this
    {
      Local(files, readers)
    }

    constructor (files: map<File, LocalData>)
      ensures State() == Local(files, multiset{})
    {
      this.files := files;
      readers := multiset{};
    }

    /** Whether `f` exists and may be read. */
    predicate CanRead(f: File)
      reads this
    {
      Readable(State(), f)
    }

    /** Open a line reader on `f`; it fails (file not found) when `f` is
        missing or unreadable, or when the call throws. */
    method OpenReader(f: File, answer: bool) returns (ok: bool)
      modifies this
      ensures ok == (answer && Readable(old(State()), f))
      ensures files == old(files)
      ensures readers == if ok then old(readers) + multiset{f} else old(readers)
    {
      ok := answer && CanRead(f);
      if ok {
        readers := readers + multiset{f};
      }
    }

    /** Close a reader on `f`: the handle is released whether or not the close
        then throws; `clean` is false when it throws. */
    method CloseReader(f: File, answer: bool) returns (clean: bool)
      modifies this
      ensures clean == answer
      ensures files == old(files) && readers == old(readers) - multiset{f}
    {
      clean := answer;
      readers := readers - multiset{f};
    }

    method Delete(f: File, answer: Answer) returns (reply: Reply)
      modifies this
      ensures (reply, State()) == LocalDeleted(old(State()), f, answer)
    {
      var res := LocalDeleted(State(), f, answer);
      reply, files := res.0, res.1.files;
    }
  }
}
