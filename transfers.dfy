/**
 * The two file loops of the scheduler: the download of a work unit's
 * input files and the upload of its result files. The transfers are
 * outcomes passed in.
 */
module Transfers {
  import opened Wrappers
  import opened BoincErrors
  import opened Disks
  import opened WorkUnits
  import Hash
  import Proxy

  /** What the network does: a GET of a URL yields the file's contents or
   *  an error, an upload succeeds or fails, and `md5` stands for the
   *  digest of a file's contents. */
  datatype Network = Network(
    fetch: string -> Result<string, Error>,
    upload: FileInfo -> Option<Error>,
    md5: string -> Hash.Digest)

  /** The list positions all designate file infos of the table. */
  predicate Linked(table: seq<FileInfo>, ids: seq<nat>)
  {
    forall k :: 0 <= k < |ids| ==> ids[k] < |table|
  }

  /** Whether the download loop fetches a file. */
  predicate Fetched(wu: WorkUnit, fi: FileInfo, d: Disk, net: Network)
    reads wu`workingDir
    requires |wu.workingDir| < PathSize
  {
    !HasFlag(fi, Generated) && wu.FileNeedsDownload(Some(fi), d, net.md5)
  }

  /** The download loop of boincSchedulerDownload over the work unit's
   *  files, head of the list first: generated files are skipped, so is a
   *  file already present with a matching checksum; the first failed
   *  download ends the loop with its error. A fetched file is written
   *  where DownloadFile saves it. */
  function DownloadAll(wu: WorkUnit, d: Disk, ids: seq<nat>, net: Network): (r: (Option<Error>, Disk))
    reads wu`workingDir, wu`manifest
    requires |wu.workingDir| < PathSize && Linked(wu.manifest.table, ids)
    decreases |ids|
  {
    if |ids| == 0 then (None, d)
    else
      var fi := wu.manifest.table[ids[0]];
      if !Fetched(wu, fi, d, net) then DownloadAll(wu, d, ids[1..], net)
      else match Proxy.DownloadRequest(fi, wu.workingDir)
        case Failure(e) => (Some(e), d)
        case Success(request) =>
          match net.fetch(request.url)
          case Failure(e) => (Some(e), d)
          case Success(body) =>
            DownloadAll(wu, if request.path.Some? then Write(d, request.path.value, body) else d, ids[1..], net)
  }

  /** Writing never removes a file. */
  lemma WriteKeeps(d: Disk, path: string, body: string, p: string)
    requires Exists(d, p)
    ensures Exists(Write(d, path, body), p)
  {
  }

  lemma {:induction false} DownloadKeeps(wu: WorkUnit, d: Disk, ids: seq<nat>, net: Network, p: string)
    requires |wu.workingDir| < PathSize && Linked(wu.manifest.table, ids)
    requires Exists(d, p)
    ensures Exists(DownloadAll(wu, d, ids, net).1, p)
    decreases |ids|
  {
    if |ids| > 0 {
      var fi := wu.manifest.table[ids[0]];
      if !Fetched(wu, fi, d, net) {
        DownloadKeeps(wu, d, ids[1..], net, p);
      } else if Proxy.DownloadRequest(fi, wu.workingDir).Success? {
        var request := Proxy.DownloadRequest(fi, wu.workingDir).value;
        if net.fetch(request.url).Success? {
          var body := net.fetch(request.url).value;
          var next := if request.path.Some? then Write(d, request.path.value, body) else d;
          DownloadKeeps(wu, next, ids[1..], net, p);
        }
      }
    }
  }

  /** An input file with an open name whose path fits the buffer. */
  predicate Needed(wu: WorkUnit, fi: FileInfo)
    reads wu`workingDir
  {
    !HasFlag(fi, Generated) && fi.openname.Some? && |fi.openname.value| > 0
    && wu.GetPath(fi, PathSize).Some?
  }

  /** After a download loop without error, every input file that has an
   *  open name and a path that fits is on disk where FileExists looks for
   *  it. */
  lemma {:induction false} DownloadedFilesPresent(wu: WorkUnit, d: Disk, ids: seq<nat>, net: Network)
    requires |wu.workingDir| < PathSize && Linked(wu.manifest.table, ids)
    requires DownloadAll(wu, d, ids, net).0.None?
    ensures forall k :: 0 <= k < |ids| && Needed(wu, wu.manifest.table[ids[k]]) ==>
      Exists(DownloadAll(wu, d, ids, net).1, wu.StatPath(wu.manifest.table[ids[k]]))
    decreases |ids|
  {
    if |ids| > 0 {
      var fi := wu.manifest.table[ids[0]];
      var next := d;
      if Fetched(wu, fi, d, net) {
        var request := Proxy.DownloadRequest(fi, wu.workingDir).value;
        var body := net.fetch(request.url).value;
        next := if request.path.Some? then Write(d, request.path.value, body) else d;
      }
      assert DownloadAll(wu, d, ids, net) == DownloadAll(wu, next, ids[1..], net);
      DownloadedFilesPresent(wu, next, ids[1..], net);
      if Needed(wu, fi) {
        assert Exists(next, wu.StatPath(fi));
        DownloadKeeps(wu, next, ids[1..], net, wu.StatPath(fi));
      }
      forall k | 1 <= k < |ids|
        ensures ids[k] == ids[1..][k - 1]
      {
      }
    }
  }

  /** Whether the upload loop sends a file: generated and marked for
   *  upload. */
  predicate Uploaded(fi: FileInfo)
  {
    HasFlag(fi, Generated) && HasFlag(fi, Upload)
  }

  /** The upload loop of boincSchedulerUpload over the result's files:
   *  the first failed upload's error, else none. */
  function UploadAll(table: seq<FileInfo>, ids: seq<nat>, net: Network): (r: Option<Error>)
    requires Linked(table, ids)
    decreases |ids|
  {
    if |ids| == 0 then None
    else
      var fi := table[ids[0]];
      if Uploaded(fi) && net.upload(fi).Some? then net.upload(fi)
      else UploadAll(table, ids[1..], net)
  }

  /** The upload loop fails exactly when one of the files it sends fails,
   *  and then with that file's error. */
  lemma {:induction false} UploadAllFails(table: seq<FileInfo>, ids: seq<nat>, net: Network)
    requires Linked(table, ids)
    ensures var r := UploadAll(table, ids, net);
      && (r.None? <==> forall k :: 0 <= k < |ids| && Uploaded(table[ids[k]]) ==> net.upload(table[ids[k]]).None?)
      && (r.Some? ==> exists k :: 0 <= k < |ids| && Uploaded(table[ids[k]]) && r == net.upload(table[ids[k]]))
    decreases |ids|
  {
    if |ids| > 0 {
      UploadAllFails(table, ids[1..], net);
      assert forall k :: 1 <= k < |ids| ==> ids[k] == ids[1..][k - 1];
      var r := UploadAll(table, ids, net);
      if r.Some? && !(Uploaded(table[ids[0]]) && net.upload(table[ids[0]]).Some?) {
        var k :| 0 <= k < |ids[1..]| && Uploaded(table[ids[1..][k]]) && r == net.upload(table[ids[1..][k]]);
        assert ids[1..][k] == ids[k + 1];
      }
    }
  }

  /** One round of the upload loop: file i's failed upload ends it, any
   *  other file passes on to the files after it. */
  lemma UploadStep(table: seq<FileInfo>, ids: seq<nat>, net: Network, i: nat)
    requires Linked(table, ids) && i < |ids|
    ensures Linked(table, ids[i..]) && Linked(table, ids[i + 1..])
    ensures var fi := table[ids[i]];
      UploadAll(table, ids[i..], net) ==
        if Uploaded(fi) && net.upload(fi).Some? then net.upload(fi) else UploadAll(table, ids[i + 1..], net)
  {
    assert ids[i..][0] == ids[i] && ids[i..][1..] == ids[i + 1..];
  }
}
