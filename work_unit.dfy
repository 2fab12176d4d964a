/**
 * The work-unit record: the files a work unit needs and produces, its
 * working directory, its life-cycle status and the last error it met.
 */
module WorkUnits {
  import opened Wrappers
  import opened BoincErrors
  import Paths
  import Hash
  import opened Disks

  // Work-unit statuses, in enum order.
  const Created := 0
  const Initializing := 1
  const Defined := 2
  const Downloading := 3
  const Waiting := 4
  const Computing := 5
  const Finished := 6
  const Uploading := 7
  const Completed := 8
  const Loading := 9
  const Failed := 10
  const LastStatus := 11

  // File-info flag bits.
  const Executable: bv32 := 1
  const Generated: bv32 := 2
  const Upload: bv32 := 4
  const MainProgram: bv32 := 8

  /** Size of the path buffers the record's helpers use. */
  const PathSize := 255

  datatype FileInfo = FileInfo(
    name: Option<string>,
    openname: Option<string>,
    url: Option<string>,
    checksum: Option<string>,
    signature: Option<string>,
    xmlSignature: Option<string>,
    nBytes: int,
    maxBytes: int,
    flags: bv32)

  /** A freshly allocated (zeroed) file info. */
  const EmptyFileInfo := FileInfo(None, None, None, None, None, None, 0, 0, 0)

  predicate HasFlag(fi: FileInfo, bit: bv32)
  {
    fi.flags & bit != 0
  }

  /** The application version a work unit runs; `files` are positions in
   *  the work unit's file table, head of the C list first. */
  datatype App = App(name: Option<string>, version: Option<string>, apiVersion: Option<string>, files: seq<nat>)

  datatype ResultInfo = ResultInfo(name: Option<string>, deadline: int, files: seq<nat>)

  /** The list a `file_ref` is currently being linked into. */
  datatype FileList = NoList | AppFiles | WorkUnitFiles | ResultFiles

  /**
   * What the server's work description fills in. Every file info ever
   * created lives in `table`, in creation order; the C `gnext` list runs
   * through it newest first. The app, work-unit and result lists hold
   * positions in `table`.
   */
  datatype Manifest = Manifest(
    name: Option<string>,
    estimatedFlops: int,
    estimatedMemory: int,
    estimatedDisk: int,
    app: Option<App>,
    files: seq<nat>,
    table: seq<FileInfo>,
    result: Option<ResultInfo>,
    current: FileList,
    delay: int)

  const EmptyManifest := Manifest(None, 0, 0, 0, None, [], [], None, NoList, 0)

  /** Every list entry designates an existing file info. */
  ghost predicate WellLinked(m: Manifest)
  {
    && (forall k :: 0 <= k < |m.files| ==> m.files[k] < |m.table|)
    && (m.app.Some? ==> forall k :: 0 <= k < |m.app.value.files| ==> m.app.value.files[k] < |m.table|)
    && (m.result.Some? ==> forall k :: 0 <= k < |m.result.value.files| ==> m.result.value.files[k] < |m.table|)
  }

  /** The file infos a list designates, in list order. */
  function Resolve(table: seq<FileInfo>, ids: seq<nat>): (r: seq<FileInfo>)
    requires forall k :: 0 <= k < |ids| ==> ids[k] < |table|
    ensures |r| == |ids|
    ensures forall k :: 0 <= k < |ids| ==> r[k] == table[ids[k]]
  {
    if |ids| == 0 then [] else [table[ids[0]]] + Resolve(table, ids[1..])
  }

  /** The status part of the record. */
  datatype StatusFields = StatusFields(status: int, progress: real, dateStatusChange: int)

  /** boincWorkUnitSetStatus on the status fields: whether the status
   *  changed, and the fields afterwards. */
  function SetStatusOutcome(f: StatusFields, status: int, now: int): (r: (bool, StatusFields))
    ensures r.0 <==> f.status != status
    ensures r.1.status == status
    ensures r.0 ==> r.1.progress == 0.0 && r.1.dateStatusChange == now
    ensures !r.0 ==> r.1 == f
  {
    if f.status != status then (true, StatusFields(status, 0.0, now)) else (false, f)
  }

  /** Setting the same status twice: the second call reports no change
   *  and changes nothing. */
  lemma SetStatusIdempotent(f: StatusFields, status: int, now: int, later: int)
    ensures var first := SetStatusOutcome(f, status, now).1;
      SetStatusOutcome(first, status, later) == (false, first)
  {
  }

  /** A status snapshot as handed to the application. */
  datatype StatusSnapshot = StatusSnapshot(
    status: int, progress: real, delay: int,
    errorType: int, errorCode: int, errorMessage: string)

  const ZeroSnapshot := StatusSnapshot(0, 0.0, 0, 0, 0, "")

  /** snprintf into a 255-byte buffer keeps at most 254 characters. */
  const MessageKeep := 254

  /** The error the record takes when its directory cannot be made. */
  const CannotCreateDirectory := Error(Fatal, FileSystem, Some("Cannot create the workunit directory"), 0)

  class WorkUnit {
    var manifest: Manifest
    var workingDir: string
    var dateStatusChange: int
    var status: int
    var progress: real
    var error: Option<Error>
    var index: int

    function StatusPart(): StatusFields
      reads this
    {
      StatusFields(status, progress, dateStatusChange)
    }

    /** boincWorkUnitCreate: a zeroed record in status Created working in
     *  `workunitDir`. When the directory is missing it is created; a
     *  failed mkdir is kept as the record's error, not a creation failure. */
    constructor (workunitDir: string, dirExists: bool, mkdirSucceeds: bool)
      ensures status == Created && workingDir == workunitDir
      ensures manifest == EmptyManifest && progress == 0.0
      ensures dateStatusChange == 0 && index == 0
      ensures error == (if dirExists || mkdirSucceeds then None else Some(CannotCreateDirectory))
    {
      manifest := EmptyManifest;
      workingDir := workunitDir;
      dateStatusChange := 0;
      status := Created;
      progress := 0.0;
      index := 0;
      if !dirExists && !mkdirSucceeds {
        error := Some(CannotCreateDirectory);
      } else {
        error := None;
      }
    }

    /** boincWorkUnitSetStatus. */
    method SetStatus(newStatus: int, now: int) returns (changed: bool)
      modifies this`status, this`progress, this`dateStatusChange
      ensures (changed, StatusPart()) == SetStatusOutcome(old(StatusPart()), newStatus, now)
      ensures manifest == old(manifest) && workingDir == old(workingDir)
      ensures error == old(error) && index == old(index)
    {
      changed := false;
      if status != newStatus {
        status := newStatus;
        progress := 0.0;
        dateStatusChange := now;
        changed := true;
      }
    }

    /** boincWorkUnitSetError: the new error replaces the old one. */
    method SetError(e: Option<Error>)
      modifies this`error
      ensures error == e
      ensures StatusPart() == old(StatusPart()) && manifest == old(manifest)
      ensures workingDir == old(workingDir) && index == old(index)
    {
      error := e;
    }

    /** boincWorkUnitGetStatus: copies status, progress and delay; the
     *  error fields of `prior` are overwritten only when there is an error,
     *  and its message only when the error has one. */
    function GetStatus(prior: StatusSnapshot): (r: StatusSnapshot)
      reads this
      ensures r.status == status && r.progress == progress && r.delay == manifest.delay
      ensures error.None? ==> r.errorType == prior.errorType && r.errorCode == prior.errorCode
      ensures error.Some? ==> r.errorType == Type(error) && r.errorCode == Code(error)
      ensures Message(error).Some? ==> r.errorMessage == Truncate(Message(error).value, MessageKeep)
      ensures Message(error).None? ==> r.errorMessage == prior.errorMessage
    {
      var base := prior.(status := status, progress := progress, delay := manifest.delay);
      match error
      case None => base
      case Some(e) =>
        var withCode := base.(errorType := e.kind, errorCode := e.code);
        if e.message.Some? then withCode.(errorMessage := Truncate(e.message.value, MessageKeep))
        else withCode
    }

    /** boincWorkUnitGetPath: the file's open name inside the working
     *  directory, or None when it does not fit `size` bytes. */
    function GetPath(fi: FileInfo, size: int): (r: Option<string>)
      reads this`workingDir
      requires fi.openname.Some?
      ensures r.Some? <==> (|workingDir| < size
        && (|fi.openname.value| == 0 || |Paths.Joined(workingDir, fi.openname.value)| < size))
      ensures r.Some? && |fi.openname.value| > 0 ==> r.value == Paths.Joined(workingDir, fi.openname.value)
    {
      Paths.GetAbsolutePath(workingDir, fi.openname.value, size)
    }

    /** What boincWorkUnitFileExists stats: the joined path, or the
     *  working directory left in the buffer when the append fails. */
    function StatPath(fi: FileInfo): (p: string)
      reads this`workingDir
      requires fi.openname.Some? && |workingDir| < PathSize
      ensures GetPath(fi, PathSize).Some? ==> p == GetPath(fi, PathSize).value
      ensures GetPath(fi, PathSize).None? ==> p == workingDir
    {
      match GetPath(fi, PathSize)
      case Some(p) => p
      case None => workingDir
    }

    /** boincWorkUnitFileExists. */
    predicate FileExists(fi: Option<FileInfo>, disk: Disk)
      reads this`workingDir
      requires fi.Some? && fi.value.openname.Some? ==> |workingDir| < PathSize
    {
      fi.Some? && fi.value.openname.Some? && Exists(disk, StatPath(fi.value))
    }

    /** boincWorkUnitFileNeedsDownload: `md5` stands for the MD5 digest of
     *  a file's contents. */
    predicate FileNeedsDownload(fi: Option<FileInfo>, disk: Disk, md5: string -> Hash.Digest)
      reads this`workingDir
      requires fi.Some? && fi.value.openname.Some? ==> |workingDir| < PathSize
    {
      if !FileExists(fi, disk) then true
      else if fi.value.checksum.None? || |fi.value.checksum.value| == 0 then true
      else fi.value.checksum.value != Hash.HexOf(md5(Contents(disk, StatPath(fi.value))))
    }

    /** A file is skipped exactly when it is on disk and its digest
     *  matches its non-empty checksum. */
    lemma NoDownloadIffVerified(fi: Option<FileInfo>, disk: Disk, md5: string -> Hash.Digest)
      requires fi.Some? && fi.value.openname.Some? ==> |workingDir| < PathSize
      ensures !FileNeedsDownload(fi, disk, md5) <==>
        && fi.Some? && fi.value.openname.Some?
        && Exists(disk, StatPath(fi.value))
        && fi.value.checksum == Some(Hash.HexOf(md5(Contents(disk, StatPath(fi.value)))))
    {
      if fi.Some? && fi.value.openname.Some? {
        Hash.DigestRendering(md5(Contents(disk, StatPath(fi.value))));
      }
    }

    /** A missing file info or open name never exists, so it is always
     *  downloaded. */
    lemma NullFileNeedsDownload(fi: Option<FileInfo>, disk: Disk, md5: string -> Hash.Digest)
      requires fi.None? || fi.value.openname.None?
      ensures !FileExists(fi, disk) && FileNeedsDownload(fi, disk, md5)
    {
    }
  }

  /** The message kept in a snapshot is a prefix of the error's message
   *  and leaves room for the terminator in the 256-byte field. */
  lemma SnapshotMessageFits(m: string)
    ensures |Truncate(m, MessageKeep)| < 256 && |Truncate(m, MessageKeep)| <= |m|
    ensures Truncate(m, MessageKeep) == m[..|Truncate(m, MessageKeep)|]
  {
  }
}
