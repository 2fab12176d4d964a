/**
 * The part of the file system the library touches: regular files with
 * their contents, and directories. A stat succeeds on either.
 */
module Disks {
  import opened Wrappers
  import opened BoincErrors

  datatype Disk = Disk(files: map<string, string>, dirs: set<string>)

  predicate Exists(d: Disk, path: string)
  {
    path in d.files || path in d.dirs
  }

  /** What a reader of `path` gets; reading a directory yields nothing. */
  function Contents(d: Disk, path: string): string
  {
    if path in d.files then d.files[path] else ""
  }

  /** `path` is `dir` itself or lies below it. */
  predicate Under(path: string, dir: string)
  {
    path == dir || (|path| > |dir| && path[..|dir|] == dir && path[|dir|] == '/')
  }

  /** The disk after `dir` and everything below it have been removed. */
  function RemoveTree(d: Disk, dir: string): (r: Disk)
    ensures !Exists(r, dir)
    ensures forall p :: p in r.files <==> p in d.files && !Under(p, dir)
    ensures forall p :: p in r.files ==> r.files[p] == d.files[p]
    ensures forall p :: p in r.dirs <==> p in d.dirs && !Under(p, dir)
  {
    Disk(map p | p in d.files && !Under(p, dir) :: d.files[p],
         set p | p in d.dirs && !Under(p, dir))
  }

  /** The disk after writing `contents` to `path`. */
  function Write(d: Disk, path: string, contents: string): (r: Disk)
    ensures Contents(r, path) == contents && Exists(r, path)
    ensures forall p :: p != path ==> Contents(r, p) == Contents(d, p)
  {
    d.(files := d.files[path := contents])
  }

  /** The disk after renaming the file `from` over `to`. */
  function Rename(d: Disk, from: string, to: string): (r: Disk)
    requires from in d.files
    ensures from != to ==> from !in r.files
    ensures Contents(r, to) == Contents(d, from)
    ensures forall p :: p != from && p != to ==> Contents(r, p) == Contents(d, p)
  {
    d.(files := d.files - {from} + map[to := d.files[from]])
  }

  /** The directory step of boincWorkUnitCreate: a missing directory is
   *  made when the file system lets it (`ok`). */
  function MakeDir(d: Disk, dir: string, ok: bool): (r: Disk)
    ensures Exists(r, dir) <==> Exists(d, dir) || ok
    ensures r.files == d.files
    ensures forall p :: p != dir ==> (Exists(r, p) <==> Exists(d, p))
  {
    if !Exists(d, dir) && ok then d.(dirs := d.dirs + {dir}) else d
  }

  /** How the file system answers a removal: every unlink and rmdir goes
   *  through, or one is refused and the walk stops there, `left` holding
   *  the entries below the path that it had not removed yet. */
  datatype Removal = Complete | StopsWith(left: set<string>)

  /** The disk after a removal of `dir` that stopped early: `dir` itself,
   *  whose rmdir comes last, and the entries in `left` are still there;
   *  the other entries below `dir` are gone. */
  function PartialRemove(d: Disk, dir: string, left: set<string>): (r: Disk)
    ensures Exists(d, dir) ==> Exists(r, dir)
    ensures forall p :: !Under(p, dir) ==> (p in r.files <==> p in d.files) && (p in r.dirs <==> p in d.dirs)
    ensures forall p :: p in r.files ==> p in d.files && r.files[p] == d.files[p]
    ensures r.dirs <= d.dirs
    ensures forall p :: Under(p, dir) && p != dir && p !in left ==> !Exists(r, p)
  {
    Disk(map p | p in d.files && (!Under(p, dir) || p == dir || p in left) :: d.files[p],
         set p | p in d.dirs && (!Under(p, dir) || p == dir || p in left))
  }

  /** A removal that stopped early is finished by the next one that goes
   *  through: the disk ends as if the first had never been tried. */
  lemma RemovalResumes(d: Disk, dir: string, left: set<string>)
    ensures RemoveTree(PartialRemove(d, dir, left), dir) == RemoveTree(d, dir)
  {
    var a := RemoveTree(PartialRemove(d, dir, left), dir);
    var b := RemoveTree(d, dir);
    assert a.files == b.files;
    assert a.dirs == b.dirs;
  }

  /** boincRemoveDirectory: a missing path is already what is wanted;
   *  otherwise the tree is walked, children first, and a refusal stops
   *  the walk with a Fatal file-system error, leaving the path and what
   *  had not been reached. */
  function RemoveDirectory(d: Disk, path: string, removal: Removal): (r: (Option<Error>, Disk))
    ensures !Exists(d, path) ==> r == (None, d)
    ensures Exists(d, path) && removal.Complete? ==> r == (None, RemoveTree(d, path))
    ensures Exists(d, path) && removal.StopsWith? ==>
      && r.1 == PartialRemove(d, path, removal.left)
      && r.0.Some? && r.0.value.kind == Fatal && r.0.value.code == FileSystem
    ensures r.0.None? <==> !Exists(r.1, path)
  {
    if !Exists(d, path) then (None, d)
    else if removal.Complete? then (None, RemoveTree(d, path))
    else (Some(Createf(Fatal, FileSystem, "Cannot remove directory " + path)), PartialRemove(d, path, removal.left))
  }

  /** boincRenameFile: an existing target is unlinked first (a failure is
   *  reported but the rename is still tried); the rename needs the source
   *  file and the file system's consent, and its failure is the error
   *  returned. */
  function RenameFile(d: Disk, from: string, to: string, unlinkable: bool, renamable: bool): (r: (Option<Error>, Disk))
    ensures from in d.files && renamable ==> r.1 == Rename(d, from, to)
    ensures from in d.files && renamable && (!Exists(d, to) || unlinkable) ==> r.0.None?
    ensures !(from in d.files && renamable) ==> r.1 == d && r.0.Some? && r.0.value.kind == ErrorType && r.0.value.code == -1
  {
    var unlinked := if Exists(d, to) && !unlinkable then Some(Createf(ErrorType, -1, "Cannot unlink " + to)) else None;
    if from in d.files && renamable then (unlinked, Rename(d, from, to))
    else (Some(Createf(ErrorType, -1, "Cannot rename " + from + " to " + to)), d)
  }
}
