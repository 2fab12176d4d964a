/**
 * Path helpers of the utility layer: copying a file name into a bounded
 * buffer and appending a relative or absolute file name to a directory.
 * A buffer of `len` bytes holds at most `len - 1` characters plus the
 * terminator; the helpers answer NULL (None) instead of overflowing it.
 */
module Paths {
  import opened Wrappers

  const Separator: char := '/'

  predicate IsAbsolute(filename: string)
  {
    |filename| > 0 && filename[0] == Separator
  }

  predicate EndsWithSeparator(path: string)
  {
    |path| > 0 && path[|path| - 1] == Separator
  }

  /** The directory `path` and `filename` joined, independently of any
   *  buffer: an absolute name replaces the directory, and exactly one
   *  separator joins a non-empty directory to a relative name. */
  function Joined(path: string, filename: string): string
  {
    if IsAbsolute(filename) then filename
    else if EndsWithSeparator(path) || |path| == 0 then path + filename
    else path + [Separator] + filename
  }

  /** initFilename: the copied name, or None when it does not fit. */
  function InitFilename(len: int, filename: string): (r: Option<string>)
    ensures r.Some? <==> |filename| < len
    ensures r.Some? ==> r.value == filename
  {
    if |filename| >= len then None else Some(filename)
  }

  /** appendFilename, branch by branch with the sizes it computes. */
  function AppendFilename(path: string, len: int, filename: string): (r: Option<string>)
    ensures |filename| == 0 ==> r == Some(path)
    ensures |filename| > 0 ==> (r.Some? <==> |Joined(path, filename)| + 1 <= len)
    ensures |filename| > 0 && r.Some? ==> r.value == Joined(path, filename)
  {
    if |filename| == 0 then Some(path)
    else if filename[0] == Separator then
      (if |filename| + 1 > len then None else Some(filename))
    else if EndsWithSeparator(path) then
      (if |path| + |filename| + 1 > len then None else Some(path + filename))
    else if |path| == 0 then
      (if |filename| + 1 > len then None else Some(path + filename))
    else
      (if |path| + |filename| + 2 > len then None else Some(path + [Separator] + filename))
  }

  /** boincGetAbsolutePath: initialise the buffer with the base, then append. */
  function GetAbsolutePath(base: string, relative: string, size: int): (r: Option<string>)
    ensures r.Some? <==> |base| < size && (|relative| == 0 || |Joined(base, relative)| < size)
    ensures r.Some? && |relative| > 0 ==> r.value == Joined(base, relative)
    ensures r.Some? && |relative| == 0 ==> r.value == base
  {
    match InitFilename(size, base)
    case None => None
    case Some(p) => AppendFilename(p, size, relative)
  }

  /** A directory without the one trailing separator it may carry. */
  function WithoutTrailingSeparator(path: string): string
  {
    if EndsWithSeparator(path) then path[..|path| - 1] else path
  }

  /** Exactly one separator between a non-empty directory and a relative
   *  name, whether or not the directory already ends with one. */
  lemma OneSeparator(path: string, filename: string)
    requires |path| > 0 && |filename| > 0 && !IsAbsolute(filename)
    ensures Joined(path, filename) == WithoutTrailingSeparator(path) + [Separator] + filename
  {
    if EndsWithSeparator(path) {
      assert path == path[..|path| - 1] + [Separator];
    }
  }

  /** A relative name is appended to the directory; an absolute one
   *  replaces it; either way the result ends with the name. */
  lemma JoinedShape(path: string, filename: string)
    ensures !IsAbsolute(filename) ==> Joined(path, filename)[..|path|] == path
    ensures IsAbsolute(filename) ==> Joined(path, filename) == filename
    ensures var j := Joined(path, filename);
      |j| >= |filename| && j[|j| - |filename|..] == filename
  {
  }

  /** A successful append always leaves room for the terminator. */
  lemma AppendFits(path: string, len: int, filename: string)
    requires |filename| > 0 && AppendFilename(path, len, filename).Some?
    ensures |AppendFilename(path, len, filename).value| < len
  {
  }

  /**
   * A caller-owned character buffer of fixed size that the helpers
   * rewrite in place; on failure they leave it untouched.
   */
  class PathBuffer {
    var text: string
    const size: int

    constructor (size: int)
      ensures this.size == size && text == ""
    {
      this.size := size;
      text := "";
    }

    /** initFilename on this buffer. */
    method Init(filename: string) returns (ok: bool)
      modifies this
      ensures ok <==> |filename| < size
      ensures text == (if ok then filename else old(text))
    {
      var r := InitFilename(size, filename);
      ok := r.Some?;
      if ok {
        text := r.value;
      }
    }

    /** appendFilename on this buffer. */
    method Append(filename: string) returns (ok: bool)
      modifies this
      ensures ok <==> AppendFilename(old(text), size, filename).Some?
      ensures ok ==> text == AppendFilename(old(text), size, filename).value
      ensures !ok ==> text == old(text)
    {
      var r := AppendFilename(text, size, filename);
      ok := r.Some?;
      if ok {
        text := r.value;
      }
    }
  }
}
