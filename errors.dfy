/**
 * BoincError: an error record (type, code, message, retry delay) that
 * every fallible operation of the library returns, NULL meaning success.
 */
module BoincErrors {
  import opened Wrappers

  // Error types, ordered by severity.
  const NoneType := 0
  const Debug := 1
  const Delay := 2
  const Info := 3
  const ErrorType := 4
  const Fatal := 5

  // Error codes.
  const Undefined := 0
  const Internal := 1
  const System := 2
  const FileSystem := 3
  const Network := 4
  const Server := 5
  const Authentication := 6

  datatype Error = Error(kind: int, code: int, message: Option<string>, delay: int)

  /** An error pointer as the C code sees it: NULL, the single static
   *  out-of-memory record, or a record allocated on the heap. */
  datatype Handle = Null | StaticOutOfMemory | Allocated(record: Error)

  /** The record every allocation failure hands back. */
  const OutOfMemory: Error := Error(Fatal, -1, Some("Out of memory"), 0)

  /** What a reader of the handle sees. */
  function Deref(h: Handle): (e: Option<Error>)
    ensures e.None? <==> h.Null?
  {
    match h
    case Null => None
    case StaticOutOfMemory => Some(OutOfMemory)
    case Allocated(r) => Some(r)
  }

  /** boincErrorCreate: `gotMemory` says whether the record (and the copy of
   *  the message, when there is one) could be allocated. */
  function Create(kind: int, code: int, message: Option<string>, gotMemory: bool): (h: Handle)
    ensures gotMemory ==> h == Allocated(Error(kind, code, message, 0))
    ensures !gotMemory ==> h == StaticOutOfMemory
  {
    if gotMemory then Allocated(Error(kind, code, message, 0)) else StaticOutOfMemory
  }

  /** At most n characters of s: what a bounded copy into an (n+1)-byte
   *  buffer keeps. */
  function Truncate(s: string, n: nat): (r: string)
    ensures |r| <= n && |r| <= |s| && r == s[..|r|]
    ensures |s| <= n ==> r == s
    ensures |s| > n ==> |r| == n
  {
    if |s| <= n then s else s[..n]
  }

  /** Characters boincErrorCreatef's 255-byte format buffer keeps. */
  const FormatKeep := 254

  /** boincErrorCreatef (allocation succeeding): the formatted text cut to
   *  the format buffer. */
  function Createf(kind: int, code: int, text: string): (e: Error)
    ensures e.kind == kind && e.code == code && e.delay == 0
    ensures e.message.Some? && |e.message.value| <= FormatKeep && |e.message.value| <= |text|
    ensures e.message.value == text[..|e.message.value|]
    ensures |text| <= FormatKeep ==> e.message == Some(text)
  {
    Error(kind, code, Some(Truncate(text, FormatKeep)), 0)
  }

  /** boincErrorCreateWithDelay: a Delay-type error carrying a retry delay. */
  function CreateWithDelay(code: int, message: Option<string>, delay: int): (e: Error)
    ensures Type(Some(e)) == Delay && Code(Some(e)) == code
    ensures Message(Some(e)) == message && DelayOf(Some(e)) == delay
  {
    Error(Delay, code, message, delay)
  }

  /** boincErrorDestroy releases exactly the heap records. */
  predicate Releases(h: Handle)
  {
    h.Allocated?
  }

  /** boincErrorOccured: 0 for success, otherwise the code, or 1 when the
   *  code is 0, so that an error is never mistaken for success. */
  function Occured(e: Option<Error>): (r: int)
    ensures r == 0 <==> e.None?
    ensures e.Some? && e.value.code != 0 ==> r == e.value.code
    ensures e.Some? && e.value.code == 0 ==> r == 1
  {
    match e
    case None => 0
    case Some(err) => if err.code != 0 then err.code else 1
  }

  /** boincErrorIsMajor: major errors carry a negative code. The C code
   *  dereferences its argument, so it takes a record. */
  predicate IsMajor(e: Error)
  {
    e.code < 0
  }

  // The NULL-tolerant accessors.
  function Code(e: Option<Error>): int { if e.Some? then e.value.code else 0 }
  function Type(e: Option<Error>): int { if e.Some? then e.value.kind else 0 }
  function Message(e: Option<Error>): Option<string> { if e.Some? then e.value.message else None }
  function DelayOf(e: Option<Error>): int { if e.Some? then e.value.delay else 0 }

  /** Reading back a created error gives the arguments it was created with,
   *  or the out-of-memory record, a major Fatal error, when allocation
   *  failed. */
  lemma CreateThenRead(kind: int, code: int, message: Option<string>, gotMemory: bool)
    ensures var e := Deref(Create(kind, code, message, gotMemory));
      && e.Some?
      && Type(e) == (if gotMemory then kind else Fatal)
      && Code(e) == (if gotMemory then code else -1)
      && Message(e) == (if gotMemory then message else Some("Out of memory"))
      && DelayOf(e) == 0
      && (!gotMemory ==> IsMajor(e.value))
  {
  }

  /** Destroying never releases the NULL pointer or the static record, and
   *  every successfully created error is released. */
  lemma ReleaseOnlyAllocated(kind: int, code: int, message: Option<string>, gotMemory: bool)
    ensures Releases(Create(kind, code, message, gotMemory)) <==> gotMemory
    ensures !Releases(Null) && !Releases(StaticOutOfMemory)
  {
  }
}
