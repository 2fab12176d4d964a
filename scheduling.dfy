/**
 * The scheduler on values: its events, the outcomes the world outside
 * supplies, the retry rule every failure goes through, the slot counts
 * behind the promotion guards, what a status change leaves on disk and
 * how a slot is recovered when the scheduler loads.
 */
module Scheduling {
  import Sequences
  import opened Wrappers
  import opened BoincErrors
  import opened Disks
  import opened WorkUnits
  import opened StatusTable
  import EventQueue
  import Paths
  import Numbers
  import XmlParser
  import Configuration
  import Proxy
  import Transfers

  /** The scheduler owns two work-unit slots. */
  const SlotCount := 2

  /** The type of the recovery event that loads the slots. */
  const LoadEvent := -1

  /** An event: what to do (a work-unit status, or LoadEvent), for which
   *  slot, and how many times it has been retried. */
  datatype Event = Event(eventType: int, index: int, nbtries: nat)

  type Queue = seq<EventQueue.Entry<Event>>

  /**
   * What the world outside the scheduler does: the host's callback
   * values, the outcomes of the proxy's requests and of the file-system
   * calls the model does not follow byte by byte, and what each saved
   * server reply parses to.
   */
  datatype Env = Env(
    host: Configuration.Host,
    proxyInit: Option<Error>,          // boincProxyInit's HTTP start and GET
    projectReply: XmlParser.Source,    // the saved project description
    startOpen: bool,                   // the store after updating from it:
    startRenamed: Option<Error>,       //   its fopen and rename
    authFetch: Option<Error>,          // the account lookup's GET
    authReply: XmlParser.Source,       // the saved account reply
    configOpen: bool,                  // boincConfigurationStore's fopen
    configRenamed: Option<Error>,      // and its rename
    mkdirOk: bool,                     // mkdir of a work-unit directory
    removal: Removal,                  // removal of a work-unit directory
    marker: MarkerIo,                  // the status marker's file calls
    workPost: Option<Error>,           // the work request up to its reply
    workReply: string -> XmlParser.Source, // a saved work reply, by path
    net: Transfers.Network,            // downloads and uploads
    report: bool -> Option<Error>)     // the result report (failed or not)

  // ---------------------------------------------------------------
  // boincSchedulerRegenerate

  /** What a retry does with its event: put it back at a later time, or
   *  give up with an error. */
  datatype Outcome = Requeued(time: nat, event: Event) | GaveUp(error: Error)

  /** The delay before a retry: the one asked for, or 10 + 10 * tries
   *  when none is. */
  function RetryDelay(delay: int, tries: nat): (r: nat)
    ensures r > 0
    ensures delay > 0 ==> r == delay
  {
    if delay <= 0 then 10 + tries * 10 else delay
  }

  /** boincSchedulerRegenerate: the try count goes up by one; when it has
   *  just reached a positive `maxtries` the event is dropped and a Fatal
   *  error returned, carrying the code and message of `error` or "Maximum
   *  number of tries exceeded" when there is none. */
  function RegenerateOutcome(delay: int, ev: Event, maxtries: int, error: Option<Error>, now: nat): (r: Outcome)
    ensures r.Requeued? ==> r.event == ev.(nbtries := ev.nbtries + 1) && r.time > now
    ensures r.GaveUp? ==> r.error.kind == Fatal && r.error.delay == 0
  {
    var tries := ev.nbtries + 1;
    if maxtries > 0 && tries == maxtries then
      GaveUp(match error
        case Some(e) => Error(Fatal, e.code, e.message, 0)
        case None => Error(Fatal, 0, Some("Maximum number of tries exceeded"), 0))
    else
      Requeued(now + RetryDelay(delay, tries), ev.(nbtries := tries))
  }

  /** The queue and the error after a retry. */
  function Retry(q: Queue, delay: int, ev: Event, maxtries: int, error: Option<Error>, now: nat): (r: (Queue, Option<Error>))
    ensures r.1.None? <==> RegenerateOutcome(delay, ev, maxtries, error, now).Requeued?
    ensures r.1.Some? ==> r.0 == q
  {
    match RegenerateOutcome(delay, ev, maxtries, error, now)
    case Requeued(t, e) => (EventQueue.Insert(q, t, e), None)
    case GaveUp(e) => (q, Some(e))
  }

  /** Retry by cases, in the terms boincSchedulerRegenerate computes. */
  lemma RetryCases(q: Queue, delay: int, ev: Event, maxtries: int, error: Option<Error>, now: nat)
    ensures var tries := ev.nbtries + 1;
      Retry(q, delay, ev, maxtries, error, now)
      == if maxtries > 0 && tries == maxtries then
           (q, Some(if error.Some? then Error(Fatal, error.value.code, error.value.message, 0)
                    else Error(Fatal, 0, Some("Maximum number of tries exceeded"), 0)))
         else (EventQueue.Insert(q, now + RetryDelay(delay, tries), ev.(nbtries := tries)), None)
  {
  }

  /** A retry that requeues adds exactly one entry to the queue: the event
   *  with one more try, due after the retry delay. */
  lemma RetryAddsOneEntry(q: Queue, delay: int, ev: Event, maxtries: int, error: Option<Error>, now: nat)
    requires Retry(q, delay, ev, maxtries, error, now).1.None?
    ensures multiset(Retry(q, delay, ev, maxtries, error, now).0)
         == multiset(q) + multiset{EventQueue.Entry(now + RetryDelay(delay, ev.nbtries + 1), ev.(nbtries := ev.nbtries + 1))}
  {
    RetryCases(q, delay, ev, maxtries, error, now);
    EventQueue.InsertContents(q, now + RetryDelay(delay, ev.nbtries + 1), ev.(nbtries := ev.nbtries + 1));
  }

  /** A retry gives up exactly when the try it counts reaches a positive
   *  limit, with the last error's code and message, or code 0 and
   *  "Maximum number of tries exceeded" when there is none; a retry keeps
   *  a sorted queue sorted. */
  lemma RetryGivesUpAtLimit(q: Queue, delay: int, ev: Event, maxtries: int, error: Option<Error>, now: nat)
    ensures var r := Retry(q, delay, ev, maxtries, error, now);
      && (r.1.Some? <==> maxtries > 0 && ev.nbtries + 1 == maxtries)
      && (r.1.Some? ==> r.1.value.code == BoincErrors.Code(error)
                        && r.1.value.message == (if error.Some? then error.value.message else Some("Maximum number of tries exceeded")))
    ensures EventQueue.Sorted(q) ==> EventQueue.Sorted(Retry(q, delay, ev, maxtries, error, now).0)
  {
    RetryCases(q, delay, ev, maxtries, error, now);
    if EventQueue.Sorted(q) {
      EventQueue.InsertSorted(q, now + RetryDelay(delay, ev.nbtries + 1), ev.(nbtries := ev.nbtries + 1));
    }
  }

  /** Without a limit a retry never gives up, and it keeps the event's type
   *  and slot. */
  lemma UnlimitedRetriesRequeue(delay: int, ev: Event, maxtries: int, error: Option<Error>, now: nat)
    requires maxtries <= 0
    ensures var r := RegenerateOutcome(delay, ev, maxtries, error, now);
      r.Requeued? && r.event.eventType == ev.eventType && r.event.index == ev.index
  {
  }

  /** Without a requested delay the backoff grows by ten seconds a try. */
  lemma BackoffGrows(delay: int, ev: Event, error: Option<Error>, now: nat)
    requires delay <= 0
    ensures RegenerateOutcome(delay, ev, 0, error, now).time == now + 10 + 10 * (ev.nbtries + 1)
    ensures RegenerateOutcome(delay, ev.(nbtries := ev.nbtries + 1), 0, error, now).time
         == RegenerateOutcome(delay, ev, 0, error, now).time + 10
  {
  }

  /** The event after `k` retries that were all requeued. */
  function Retried(ev: Event, k: nat): (r: Event)
    ensures r.eventType == ev.eventType && r.index == ev.index && r.nbtries == ev.nbtries + k
  {
    if k == 0 then ev else Retried(ev, k - 1).(nbtries := ev.nbtries + k)
  }

  /** An event created with no tries and retried with a limit is requeued
   *  `maxtries - 1` times and dropped on the next failure, with a Fatal
   *  error carrying the last error's code and message. */
  lemma {:induction false} GivesUpAtLimit(delay: int, ev: Event, maxtries: nat, e: Error, now: nat, k: nat)
    requires ev.nbtries == 0 && maxtries > 0 && k < maxtries
    ensures var r := RegenerateOutcome(delay, Retried(ev, k), maxtries, Some(e), now);
      if k + 1 < maxtries then r == Requeued(now + RetryDelay(delay, k + 1), Retried(ev, k + 1))
      else r == GaveUp(Error(Fatal, e.code, e.message, 0))
  {
    var r := RegenerateOutcome(delay, Retried(ev, k), maxtries, Some(e), now);
    if k + 1 < maxtries {
      assert r.event == Retried(ev, k).(nbtries := k + 1);
    }
  }

  /** The recovery event: a non-fatal load failure is retried after 15
   *  seconds at most four times in all; the fourth failure is Fatal. */
  lemma LoadGivesUpOnFourthFailure(ev: Event, e: Error, now: nat)
    requires ev.nbtries == 0
    ensures RegenerateOutcome(15, ev, 4, Some(e), now) == Requeued(now + 15, Retried(ev, 1))
    ensures RegenerateOutcome(15, Retried(ev, 1), 4, Some(e), now) == Requeued(now + 15, Retried(ev, 2))
    ensures RegenerateOutcome(15, Retried(ev, 2), 4, Some(e), now) == Requeued(now + 15, Retried(ev, 3))
    ensures RegenerateOutcome(15, Retried(ev, 3), 4, Some(e), now) == GaveUp(Error(Fatal, e.code, e.message, 0))
  {
    GivesUpAtLimit(15, ev, 4, e, now, 0);
    GivesUpAtLimit(15, ev, 4, e, now, 1);
    GivesUpAtLimit(15, ev, 4, e, now, 2);
    GivesUpAtLimit(15, ev, 4, e, now, 3);
  }

  // ---------------------------------------------------------------
  // The promotion guards

  /** The statuses boincSchedulerCountDownloading, CountComputing and
   *  CountUploading look for. */
  const DownloadPhase: set<int> := {Initializing, Downloading, Waiting}
  const ComputePhase: set<int> := {Computing}
  const UploadPhase: set<int> := {Uploading}

  /** The rows of the event table that promote a slot: from the row's
   *  own status to the next one, when no slot is in the next one's
   *  phase. */
  function PromotionRow(t: int): (r: (int, int, set<int>))
    requires t in {Created, Waiting, Finished}
    ensures r.0 == t && r.1 == t + 1 && r.1 in r.2
  {
    if t == Created then (Created, Initializing, DownloadPhase)
    else if t == Waiting then (Waiting, Computing, ComputePhase)
    else (Finished, Uploading, UploadPhase)
  }

  /** The event types whose row of the event table changes the
   *  scheduler: all but Computing, whose row only hands the record to
   *  the application, and the types the table has no row for. */
  predicate Acting(t: int)
  {
    t in {LoadEvent, Created, Initializing, Downloading, Waiting, Finished, Uploading, Completed, Failed}
  }

  /** How many occupied slots are in one of the `wanted` statuses; a slot
   *  is None while empty. */
  function CountIn(ss: seq<Option<int>>, wanted: set<int>): (n: nat)
    ensures n <= |ss|
  {
    if |ss| == 0 then 0
    else (if ss[0].Some? && ss[0].value in wanted then 1 else 0) + CountIn(ss[1..], wanted)
  }

  /** The count is zero exactly when no occupied slot is in a wanted
   *  status. */
  lemma {:induction false} CountZeroIff(ss: seq<Option<int>>, wanted: set<int>)
    ensures CountIn(ss, wanted) == 0 <==> forall k :: 0 <= k < |ss| && ss[k].Some? ==> ss[k].value !in wanted
  {
    if |ss| > 0 {
      CountZeroIff(ss[1..], wanted);
      assert forall k :: 1 <= k < |ss| ==> ss[k] == ss[1..][k - 1];
    }
  }

  /** Counting slot by slot. */
  lemma {:induction false} CountSnoc(ss: seq<Option<int>>, x: Option<int>, wanted: set<int>)
    ensures CountIn(ss + [x], wanted) == CountIn(ss, wanted) + (if x.Some? && x.value in wanted then 1 else 0)
  {
    if |ss| > 0 {
      assert (ss + [x])[1..] == ss[1..] + [x];
      CountSnoc(ss[1..], x, wanted);
    } else {
      assert (ss + [x])[1..] == [];
    }
  }

  // ---------------------------------------------------------------
  // Status persistence and the slot-index guard

  /** The disk after boincSchedulerSetWorkUnitStatus moved a slot working
   *  in `wd` from `before` to `status`: the marker is written only when
   *  the status changed and its table row is storable. */
  function Persist(d: Disk, wd: string, before: int, status: int, io: MarkerIo): (r: Disk)
    ensures before == status || !Storable(status) ==> r == d
  {
    if before != status && Storable(status) then WriteMarker(d, wd, status, io).1 else d
  }

  /** A status change that was written completely is what the marker is
   *  read back as. */
  lemma PersistedStatusReadBack(d: Disk, wd: string, before: int, status: int, io: MarkerIo)
    requires before != status && Storable(status) && MarkerFits(wd)
    requires io.openable && io.writable && io.renamable
    ensures ReadMarker(Persist(d, wd, before, status, io), wd, true) == Success(Some(status))
  {
    MarkerRoundTrip(d, wd, status, io);
  }

  /** A status change touches no file but the two markers. */
  lemma PersistTouchesOnlyMarkers(d: Disk, wd: string, before: int, status: int, io: MarkerIo, p: string)
    requires p != MarkerPath(wd) && p != TmpMarkerPath(wd)
    ensures Contents(Persist(d, wd, before, status, io), p) == Contents(d, p)
  {
    if before != status && Storable(status) {
      MarkerAtomic(d, wd, status, io);
    }
  }

  /** The bounds check of boincSchedulerSetWorkUnitStatus as written: the
   *  two conditions are joined with `&&`. */
  predicate GuardAsWritten(index: int)
  {
    index < 0 && index >= SlotCount
  }

  /** The bounds check as intended: the index designates no slot. */
  predicate OutOfRange(index: int)
  {
    index < 0 || index >= SlotCount
  }

  /** The written check never fires, so an index that designates no slot
   *  goes through, where the intended check rejects it. */
  lemma GuardNeverFires(index: int)
    ensures !GuardAsWritten(index)
    ensures OutOfRange(-1) && !GuardAsWritten(-1)
    ensures OutOfRange(SlotCount) && !GuardAsWritten(SlotCount)
  {
  }

  /** The error the intended check returns. */
  function IndexError(index: int): (e: Error)
    ensures e.kind == ErrorType && e.code == Internal
  {
    Createf(ErrorType, Internal, "Index out of bounds: " + Numbers.Decimal(index))
  }

  // ---------------------------------------------------------------
  // Loading the slots (boincSchedulerLoad)

  /** The directory of slot `index`: the project directory with the slot
   *  number appended, or the project directory itself when that does not
   *  fit the 255-byte buffer. */
  function SlotDirectory(projectDir: string, index: nat): (r: string)
    ensures |projectDir| < PathSize ==> |r| < PathSize
    ensures |Paths.Joined(projectDir, Numbers.Decimal(index))| < PathSize ==> r == Paths.Joined(projectDir, Numbers.Decimal(index))
    ensures |Paths.Joined(projectDir, Numbers.Decimal(index))| >= PathSize ==> r == projectDir
  {
    match Paths.AppendFilename(projectDir, PathSize, Numbers.Decimal(index))
    case Some(p) => p
    case None => projectDir
  }

  /** When both fit, the two slots work in different directories. */
  lemma SlotDirectoriesDiffer(projectDir: string)
    requires |Paths.Joined(projectDir, "0")| < PathSize && |Paths.Joined(projectDir, "1")| < PathSize
    ensures SlotDirectory(projectDir, 0) != SlotDirectory(projectDir, 1)
  {
    assert Numbers.Decimal(0) == "0" && Numbers.Decimal(1) == "1";
    var a := SlotDirectory(projectDir, 0);
    var b := SlotDirectory(projectDir, 1);
    assert a[|a| - 1] == '0' && b[|b| - 1] == '1';
  }

  /** The error boincWorkUnitCreate leaves on a record for directory `wd`. */
  function CreationError(d: Disk, wd: string, mkdirOk: bool): (r: Option<Error>)
    ensures r.None? <==> Exists(MakeDir(d, wd, mkdirOk), wd)
  {
    if Exists(d, wd) || mkdirOk then None else Some(CannotCreateDirectory)
  }

  /** The outcome of loading one slot: the error that ends the load
   *  (None unless the directory could not be removed), and the slot's
   *  status, work description and error, and the disk afterwards. */
  datatype Recovery = Recovery(aborted: Option<Error>, status: int, manifest: Manifest, error: Option<Error>, disk: Disk)

  /** What a status read from the marker leads to: a status from
   *  Downloading on needs the saved work reply to parse again. */
  function Reread(read: Result<Option<int>, Error>, wd: string, env: Env): (Option<Error>, int, Manifest)
  {
    match read
    case Failure(e) => (Some(e), Created, EmptyManifest)
    case Success(None) => (None, Created, EmptyManifest)
    case Success(Some(s)) =>
      if s >= Downloading then
        var (e, m) := Proxy.LoadWorkUnit(EmptyManifest, wd, env.workReply(Proxy.RequestWorkFile(wd)));
        (e, s, m)
      else (None, s, EmptyManifest)
  }

  /** One turn of the slot loop of boincSchedulerLoad: a record is created
   *  for `wd`, its status read from the marker and, from Downloading on,
   *  its saved work reloaded. Any failure there erases the directory and
   *  starts the slot afresh; a directory that cannot be erased ends the
   *  load. */
  function RecoverSlot(d: Disk, wd: string, env: Env): (r: Recovery)
    ensures r.aborted.Some? ==> r.aborted.value.kind == Fatal && r.aborted.value.code == FileSystem
    ensures r.aborted.None? ==> 0 <= r.status < Rows
  {
    var d1 := MakeDir(d, wd, env.mkdirOk);
    var created := CreationError(d, wd, env.mkdirOk);
    var (failure, status, m) := Reread(ReadMarker(d1, wd, env.marker.readable), wd, env);
    if failure.None? then Recovery(None, status, m, created, d1)
    else
      var (removed, d2) := RemoveDirectory(d1, wd, env.removal);
      if removed.Some? then Recovery(removed, status, m, created, d2)
      else Recovery(None, Created, EmptyManifest, CreationError(d2, wd, env.mkdirOk), MakeDir(d2, wd, env.mkdirOk))
  }

  /** A recovered slot's work description is well linked. */
  lemma RecoveryKeepsLinks(d: Disk, wd: string, env: Env)
    ensures WellLinked(RecoverSlot(d, wd, env).manifest)
  {
    RereadKeepsLinks(ReadMarker(MakeDir(d, wd, env.mkdirOk), wd, env.marker.readable), wd, env);
  }

  /** The work description a reread leaves is well linked. */
  lemma RereadKeepsLinks(read: Result<Option<int>, Error>, wd: string, env: Env)
    ensures WellLinked(Reread(read, wd, env).2)
  {
    Proxy.LoadKeepsLinks(EmptyManifest, wd, env.workReply(Proxy.RequestWorkFile(wd)));
  }

  /** A slot without a marker starts as a new, empty work unit. */
  lemma NoMarkerStartsCreated(d: Disk, wd: string, env: Env)
    requires !Exists(d, MarkerPath(wd))
    ensures var r := RecoverSlot(d, wd, env);
      r.aborted.None? && r.status == Created && r.manifest == EmptyManifest
  {
  }

  /** A marker holding the label of row `s` brings the slot back in status
   *  `s`; from Downloading on, only when the saved work reply loads, and
   *  then with the work it describes. */
  lemma StoredStatusRecovered(d: Disk, wd: string, s: int, env: Env)
    requires 0 <= s < Rows && MarkerPath(wd) in d.files && d.files[MarkerPath(wd)] == Label(s)
    requires env.marker.readable
    ensures var r := RecoverSlot(d, wd, env);
      var (e, m) := Proxy.LoadWorkUnit(EmptyManifest, wd, env.workReply(Proxy.RequestWorkFile(wd)));
      && (s < Downloading ==> r.aborted.None? && r.status == s && r.manifest == EmptyManifest)
      && (s >= Downloading && e.None? ==> r.aborted.None? && r.status == s && r.manifest == m)
  {
    var d1 := MakeDir(d, wd, env.mkdirOk);
    assert Contents(d1, MarkerPath(wd)) == Label(s);
    LabelIsOneWord(s);
    LabelRoundTrip(s);
    assert ReadMarker(d1, wd, true) == Success(Some(s));
  }

  /** A slot whose saved work no longer loads is erased and restarted:
   *  it comes back as Created with an empty work description, or the
   *  load ends with the directory's removal error, the directory still
   *  there with what the removal had not reached. */
  lemma FailedReloadRestarts(d: Disk, wd: string, s: int, env: Env)
    requires Downloading <= s < Rows && MarkerPath(wd) in d.files && d.files[MarkerPath(wd)] == Label(s)
    requires env.marker.readable && wd in d.dirs
    requires Proxy.LoadWorkUnit(EmptyManifest, wd, env.workReply(Proxy.RequestWorkFile(wd))).0.Some?
    ensures var r := RecoverSlot(d, wd, env);
      if env.removal.Complete? then r.aborted.None? && r.status == Created && r.manifest == EmptyManifest
      else r.aborted.Some? && r.disk == PartialRemove(MakeDir(d, wd, env.mkdirOk), wd, env.removal.left) && Exists(r.disk, wd)
  {
    var d1 := MakeDir(d, wd, env.mkdirOk);
    assert Contents(d1, MarkerPath(wd)) == Label(s);
    LabelIsOneWord(s);
    LabelRoundTrip(s);
    assert ReadMarker(d1, wd, true) == Success(Some(s));
    StatusTable.MarkerPathsDiffer(wd);
    assert Exists(d1, wd);
  }

  /** A status persisted before the program stopped is the status the
   *  slot is loaded with, when the write and the later read succeed and
   *  the saved reply (when needed) still loads. */
  lemma PersistThenRecover(d: Disk, wd: string, before: int, s: int, env: Env)
    requires before != s && Storable(s) && MarkerFits(wd)
    requires env.marker.openable && env.marker.writable && env.marker.renamable && env.marker.readable
    requires s >= Downloading ==> Proxy.LoadWorkUnit(EmptyManifest, wd, env.workReply(Proxy.RequestWorkFile(wd))).0.None?
    ensures var r := RecoverSlot(Persist(d, wd, before, s, env.marker), wd, env);
      r.aborted.None? && r.status == s
  {
    var after := Persist(d, wd, before, s, env.marker);
    PersistedStatusReadBack(d, wd, before, s, env.marker);
    MarkerRoundTrip(d, wd, s, env.marker);
    StatusTable.MarkerPathsDiffer(wd);
    assert MarkerPath(wd) in after.files && after.files[MarkerPath(wd)] == Label(s);
    StoredStatusRecovered(after, wd, s, env);
  }

  /** The time a loaded slot's first event is due: at once (time 0) when
   *  it was computing, so that it comes first, else now. */
  function StartTime(status: int, now: nat): nat
  {
    if status == Computing then 0 else now
  }

  /** What the slot loop of boincSchedulerLoad leaves: the error that
   *  ended it, the disk, the queue, and the records recovered, in slot
   *  order. */
  datatype SlotsLoad = SlotsLoad(err: Option<Error>, disk: Disk, queue: Queue, records: seq<Recovery>)

  /** The slot loop from slot `i` on, for the slot directories under
   *  `projectDir`: each slot is recovered on the disk the previous one
   *  left and its first event queued, until a slot's recovery ends the
   *  load. Only a directory that cannot be removed ends it, and every
   *  slot is loaded when none does. */
  function LoadFrom(d: Disk, q: Queue, projectDir: string, env: Env, now: nat, i: nat): (r: SlotsLoad)
    decreases SlotCount - i
    ensures r.err.Some? ==> r.err.value.kind == Fatal && r.err.value.code == FileSystem
    ensures i <= SlotCount ==> |r.records| <= SlotCount - i
    ensures r.err.None? && i <= SlotCount ==> |r.records| == SlotCount - i
    ensures i >= SlotCount ==> r == SlotsLoad(None, d, q, [])
  {
    if i >= SlotCount then SlotsLoad(None, d, q, [])
    else
      var rec := RecoverSlot(d, SlotDirectory(projectDir, i), env);
      if rec.aborted.Some? then SlotsLoad(rec.aborted, rec.disk, q, [])
      else
        var rest := LoadFrom(rec.disk, EventQueue.Insert(q, StartTime(rec.status, now), Event(rec.status, i, 0)), projectDir, env, now, i + 1);
        rest.(records := [rec] + rest.records)
  }

  /** The slot recovery of the environment `env`, as a function of the
   *  disk and the slot directory. */
  function Recoverer(env: Env): (Disk, string) -> Recovery
  {
    (d, wd) => RecoverSlot(d, wd, env)
  }

  /** One slot of the loop, as the loop itself records it: `rec` was
   *  recovered by `recover` for slot `k` on disk `d` and loaded, leaving
   *  disk `d1`, and its first event took queue `q` to `q1`. */
  predicate Turn(recover: (Disk, string) -> Recovery, projectDir: string, now: nat, k: nat, d: Disk, q: Queue, rec: Recovery, d1: Disk, q1: Queue)
  {
    && rec == recover(d, SlotDirectory(projectDir, k)) && rec.aborted.None?
    && d1 == rec.disk && q1 == EventQueue.Insert(q, StartTime(rec.status, now), Event(rec.status, k, 0))
  }

  /** The loop's history of slots 0 .. |recs|-1: the disks and queues
   *  before and after each turn. */
  ghost predicate Turns(recover: (Disk, string) -> Recovery, projectDir: string, now: nat, ds: seq<Disk>, qs: seq<Queue>, recs: seq<Recovery>)
  {
    && |ds| == |qs| == |recs| + 1
    && forall k :: 0 <= k < |recs| ==> Turn(recover, projectDir, now, k, ds[k], qs[k], recs[k], ds[k + 1], qs[k + 1])
  }

  /** A slot whose recovery does not end the load is followed by the
   *  loop from the next slot, on the disk it left and with its first
   *  event queued. */
  lemma TurnLoad(projectDir: string, env: Env, now: nat, i: nat, d: Disk, q: Queue, rec: Recovery, d1: Disk, q1: Queue)
    requires i < SlotCount && Turn(Recoverer(env), projectDir, now, i, d, q, rec, d1, q1)
    ensures var rest := LoadFrom(d1, q1, projectDir, env, now, i + 1);
      LoadFrom(d, q, projectDir, env, now, i) == rest.(records := [rec] + rest.records)
  {
    assert rec == RecoverSlot(d, SlotDirectory(projectDir, i), env);
  }

  /** A history of turns from slot i on is the loop from slot i, up to
   *  where the history stops. */
  lemma {:induction false} TurnsLoad(projectDir: string, env: Env, now: nat, ds: seq<Disk>, qs: seq<Queue>, recs: seq<Recovery>, i: nat)
    requires Turns(Recoverer(env), projectDir, now, ds, qs, recs) && i <= |recs| <= SlotCount
    decreases |recs| - i
    ensures var n := |recs|;
      var rest := LoadFrom(ds[n], qs[n], projectDir, env, now, n);
      LoadFrom(ds[i], qs[i], projectDir, env, now, i) == rest.(records := recs[i..] + rest.records)
  {
    if i < |recs| {
      TurnLoad(projectDir, env, now, i, ds[i], qs[i], recs[i], ds[i + 1], qs[i + 1]);
      TurnsLoad(projectDir, env, now, ds, qs, recs, i + 1);
      Sequences.SliceCons(recs, i, LoadFrom(ds[|recs|], qs[|recs|], projectDir, env, now, |recs|).records);
    }
  }

  /** Where a history of turns stops — every slot loaded, or the next
   *  slot's recovery ending the load — the loop from slot 0 has its
   *  outcome. */
  lemma TurnsEnd(projectDir: string, env: Env, now: nat, ds: seq<Disk>, qs: seq<Queue>, recs: seq<Recovery>,
                 err: Option<Error>, d: Disk, q: Queue)
    requires Turns(Recoverer(env), projectDir, now, ds, qs, recs) && |recs| <= SlotCount && q == qs[|recs|]
    requires err.None? ==> |recs| == SlotCount && d == ds[|recs|]
    requires err.Some? ==> |recs| < SlotCount && err == RecoverSlot(ds[|recs|], SlotDirectory(projectDir, |recs|), env).aborted
                           && d == RecoverSlot(ds[|recs|], SlotDirectory(projectDir, |recs|), env).disk
    ensures LoadFrom(ds[0], qs[0], projectDir, env, now, 0) == SlotsLoad(err, d, q, recs)
  {
    TurnsLoad(projectDir, env, now, ds, qs, recs, 0);
    assert recs[0..] == recs;
  }

  /** A turn for the next slot extends the history. */
  lemma TurnsExtend(recover: (Disk, string) -> Recovery, projectDir: string, now: nat, ds: seq<Disk>, qs: seq<Queue>, recs: seq<Recovery>,
                    rec: Recovery, d: Disk, q: Queue)
    requires Turns(recover, projectDir, now, ds, qs, recs)
    requires Turn(recover, projectDir, now, |recs|, ds[|recs|], qs[|recs|], rec, d, q)
    ensures Turns(recover, projectDir, now, ds + [d], qs + [q], recs + [rec])
  {
    var ds', qs', recs' := ds + [d], qs + [q], recs + [rec];
    forall k | 0 <= k < |recs'|
      ensures Turn(recover, projectDir, now, k, ds'[k], qs'[k], recs'[k], ds'[k + 1], qs'[k + 1])
    {
      if k < |recs| {
        assert ds'[k] == ds[k] && ds'[k + 1] == ds[k + 1] && qs'[k] == qs[k] && qs'[k + 1] == qs[k + 1] && recs'[k] == recs[k];
        assert Turn(recover, projectDir, now, k, ds[k], qs[k], recs[k], ds[k + 1], qs[k + 1]);
      } else {
        assert ds'[k] == ds[k] && ds'[k + 1] == d && qs'[k] == qs[k] && qs'[k + 1] == q && recs'[k] == rec;
      }
    }
  }

  /** The first events of the loaded records, the first one being slot
   *  `i`'s. */
  function FirstEvents(records: seq<Recovery>, i: nat, now: nat): multiset<EventQueue.Entry<Event>>
    decreases |records|
  {
    if |records| == 0 then multiset{}
    else multiset{EventQueue.Entry(StartTime(records[0].status, now), Event(records[0].status, i, 0))} + FirstEvents(records[1..], i + 1, now)
  }

  /** Loading queues exactly one event per loaded slot, for its recovered
   *  status, and keeps the queue sorted. */
  lemma {:induction false} LoadQueuesFirstEvents(d: Disk, q: Queue, projectDir: string, env: Env, now: nat, i: nat)
    requires EventQueue.Sorted(q)
    decreases SlotCount - i
    ensures var r := LoadFrom(d, q, projectDir, env, now, i);
      EventQueue.Sorted(r.queue) && multiset(r.queue) == multiset(q) + FirstEvents(r.records, i, now)
  {
    if i < SlotCount {
      var rec := RecoverSlot(d, SlotDirectory(projectDir, i), env);
      if rec.aborted.None? {
        var t := StartTime(rec.status, now);
        var e := Event(rec.status, i, 0);
        var q1 := EventQueue.Insert(q, t, e);
        EventQueue.InsertContents(q, t, e);
        EventQueue.InsertSorted(q, t, e);
        LoadQueuesFirstEvents(rec.disk, q1, projectDir, env, now, i + 1);
        var rest := LoadFrom(rec.disk, q1, projectDir, env, now, i + 1);
        assert ([rec] + rest.records)[1..] == rest.records;
      }
    }
  }

  // ---------------------------------------------------------------
  // boincSchedulerLoad as a whole

  /** boincProxyInit in the session step: the project description is
   *  fetched and the configuration updated from it. */
  function Start(values: Configuration.Values, env: Env): (Option<Error>, Configuration.Values)
  {
    Proxy.Init(values, env.host, env.proxyInit, env.projectReply, env.startOpen, env.startRenamed)
  }

  /** The session step of boincSchedulerLoad: the proxy starts, which
   *  updates the configuration from the project description and may end
   *  the load; then, when the user has no authenticator yet, the user
   *  authenticates, which sets the authenticator and stores the
   *  configuration. After the start only the authenticator can change,
   *  and a session that succeeds leaves one set. */
  function Session(values: Configuration.Values, env: Env): (r: (Option<Error>, Configuration.Values))
    ensures Start(values, env).0.Some? ==> r == Start(values, env)
    ensures Start(values, env).1[Configuration.UserAuthenticator].Some? ==> r == Start(values, env)
    ensures forall p :: 0 <= p < Configuration.LastIndex && p != Configuration.UserAuthenticator ==> r.1[p] == Start(values, env).1[p]
    ensures r.0.None? ==> r.1[Configuration.UserAuthenticator].Some?
  {
    var (started, v) := Start(values, env);
    if started.Some? then (started, v)
    else if v[Configuration.UserAuthenticator].Some? then (None, v)
    else match Proxy.Authenticate(v, env.host, env.authFetch, env.authReply)
      case Failure(e) => (Some(e), v)
      case Success(a) =>
        var v' := v[Configuration.UserAuthenticator := Some(a)];
        (Configuration.StoreError(v', env.host, env.configOpen, env.configRenamed), v')
  }

  /** An authentication whose configuration could not be stored is not
   *  repeated: the authenticator is kept in memory whatever the store
   *  did, and the next session only starts the proxy. */
  lemma StoreFailureKeepsAuthenticator(values: Configuration.Values, env: Env, next: Env)
    requires Start(values, env).0.None? && Start(values, env).1[Configuration.UserAuthenticator].None?
    requires Proxy.Authenticate(Start(values, env).1, env.host, env.authFetch, env.authReply).Success?
    ensures Session(values, env).1[Configuration.UserAuthenticator].Some?
    ensures Session(Session(values, env).1, next) == Start(Session(values, env).1, next)
  {
    var s := Session(values, env).1;
    Proxy.InitKeepsSet(s, next.host, next.proxyInit, next.projectReply, next.startOpen, next.startRenamed,
                       Configuration.UserAuthenticator);
  }

  /** The project directory the slot loop reads into its 255-byte path
   *  buffer. */
  function ProjectDir(values: Configuration.Values, host: Configuration.Host): (r: string)
    ensures |r| < PathSize
  {
    Configuration.ValueString(values, Configuration.ProjectDirectory, PathSize, host)
  }

  /** What boincSchedulerLoad leaves: its error, the parameters, the disk,
   *  the queue, and the records of the slots it loaded, in slot order. */
  datatype LoadResult = LoadResult(err: Option<Error>, values: Configuration.Values, disk: Disk, queue: Queue, records: seq<Recovery>)

  /** boincSchedulerLoad on values: the session step, then the slot loop
   *  in the project directory the session leaves. */
  function LoadOutcome(values: Configuration.Values, d: Disk, q: Queue, env: Env, now: nat): (r: LoadResult)
    ensures r.values == Session(values, env).1 && |r.records| <= SlotCount
  {
    var (session, v) := Session(values, env);
    if session.Some? then LoadResult(session, v, d, q, [])
    else
      var s := LoadFrom(d, q, ProjectDir(v, env.host), env, now, 0);
      LoadResult(s.err, v, s.disk, s.queue, s.records)
  }

  /** A load either fails in its session step, changing nothing but the
   *  authenticator, or fails fatally on a directory it cannot remove, or
   *  loads every slot and queues one event for each; after a successful
   *  load the user is authenticated. */
  lemma LoadOutcomes(values: Configuration.Values, d: Disk, q: Queue, env: Env, now: nat)
    requires EventQueue.Sorted(q)
    ensures var r := LoadOutcome(values, d, q, env, now);
      var session := Session(values, env).0;
      && (session.Some? ==> r.err == session && r.disk == d && r.queue == q && r.records == [])
      && (session.None? && r.err.Some? ==> r.err.value.kind == Fatal && r.err.value.code == FileSystem && |r.records| < SlotCount)
      && (r.err.None? ==>
            && session.None? && |r.records| == SlotCount && r.values[Configuration.UserAuthenticator].Some?
            && EventQueue.Sorted(r.queue)
            && multiset(r.queue) == multiset(q) + multiset{
                 EventQueue.Entry(StartTime(r.records[0].status, now), Event(r.records[0].status, 0, 0)),
                 EventQueue.Entry(StartTime(r.records[1].status, now), Event(r.records[1].status, 1, 0))})
  {
    var r := LoadOutcome(values, d, q, env, now);
    var (session, v) := Session(values, env);
    if session.None? {
      LoadQueuesFirstEvents(d, q, ProjectDir(v, env.host), env, now, 0);
      if r.err.None? {
        assert r.records[1..][1..] == [];
      }
    }
  }

  /** Every entry of a queue after an insertion is the new one or was
   *  there before. */
  lemma InsertMembers(q: Queue, t: nat, x: Event)
    ensures forall e :: e in EventQueue.Insert(q, t, x) <==> e in q || e == EventQueue.Entry(t, x)
  {
    EventQueue.InsertContents(q, t, x);
    var r := EventQueue.Insert(q, t, x);
    forall e
      ensures e in r <==> e in q || e == EventQueue.Entry(t, x)
    {
      assert e in r <==> e in multiset(r);
      assert e in q <==> e in multiset(q);
    }
  }

  // ---------------------------------------------------------------
  // The work of one phase

  /** What the work request's reply, saved in the slot's directory,
   *  parses to. */
  function WorkReply(wd: string, env: Env): XmlParser.Source
  {
    env.workReply(Proxy.RequestWorkFile(wd))
  }

  /** boincProxyRequestWork: the request is written and posted (outcome
   *  `workPost`); the configuration is then updated from the saved reply,
   *  an error there being logged and dropped, and the reply is loaded into
   *  the work unit, whose error is the result. */
  function RequestWork(m: Manifest, values: Configuration.Values, wd: string, env: Env): (r: (Option<Error>, Manifest, Configuration.Values))
    ensures env.workPost.Some? ==> r == (env.workPost, m, values)
    ensures env.workPost.None? ==> (r.0, r.1) == Proxy.LoadWorkUnit(m, wd, WorkReply(wd, env))
    ensures env.workPost.None? ==>
      r.2 == Configuration.UpdateOutcome(values, Proxy.RequestWorkFile(wd), WorkReply(wd, env), env.host, env.configOpen, env.configRenamed).1
  {
    if env.workPost.Some? then (env.workPost, m, values)
    else
      var (_, updated) := Configuration.UpdateOutcome(values, Proxy.RequestWorkFile(wd), WorkReply(wd, env), env.host, env.configOpen, env.configRenamed);
      var (err, loaded) := Proxy.LoadWorkUnit(m, wd, WorkReply(wd, env));
      (err, loaded, updated)
  }

  /** The configuration update inside a work request never decides it:
   *  whatever the store after the update does, the request fails or
   *  succeeds with the same work, and the configuration values play no
   *  part either. */
  lemma UpdateErrorIgnored(m: Manifest, values: Configuration.Values, other: Configuration.Values, wd: string, env: Env,
                           openOk: bool, renamed: Option<Error>)
    ensures var r := RequestWork(m, values, wd, env);
      var s := RequestWork(m, other, wd, env.(configOpen := openOk, configRenamed := renamed));
      r.0 == s.0 && r.1 == s.1
  {
  }

  /** A work reply that lists configuration parameters sets each of them
   *  to its text. */
  lemma RequestSetsParameters(m: Manifest, values: Configuration.Values, wd: string, env: Env, entries: seq<(string, string)>)
    requires env.workPost.None? && WorkReply(wd, env) == XmlParser.Whole(Configuration.DocumentEvents(entries))
    requires forall k :: 0 <= k < |entries| ==> |entries[k].1| < XmlParser.BufferSize - 1
    ensures RequestWork(m, values, wd, env).2 == Configuration.Applied(values, entries)
  {
    Configuration.UpdateFromDocument(values, Proxy.RequestWorkFile(wd), entries, env.host, env.configOpen, env.configRenamed);
  }

  /** A work request keeps the work unit's lists linked. */
  lemma RequestKeepsLinks(m: Manifest, values: Configuration.Values, wd: string, env: Env)
    requires WellLinked(m)
    ensures WellLinked(RequestWork(m, values, wd, env).1)
  {
    if env.workPost.None? {
      Proxy.LoadKeepsLinks(m, wd, env.workReply(Proxy.RequestWorkFile(wd)));
    }
  }

  /** The files of a work unit's result; none when it has no result. */
  function ResultFileIds(m: Manifest): (ids: seq<nat>)
    ensures WellLinked(m) ==> Transfers.Linked(m.table, ids)
  {
    if m.result.Some? then m.result.value.files else []
  }

  /** boincSchedulerCompleted after the status change: the report to the
   *  server fails, leaving the disk alone, or the erase of the directory
   *  runs and its outcome is the error. The directory is gone exactly
   *  when there is no error, or the report failed before it existed. */
  function Finish(d: Disk, wd: string, failed: bool, env: Env): (r: (Option<Error>, Disk))
    ensures env.report(failed).Some? ==> r == (env.report(failed), d)
    ensures env.report(failed).None? ==> r == RemoveDirectory(d, wd, env.removal)
    ensures r.0.None? ==> !Exists(r.1, wd)
    ensures r.0.Some? && Exists(d, wd) ==> Exists(r.1, wd)
  {
    if env.report(failed).Some? then (env.report(failed), d) else RemoveDirectory(d, wd, env.removal)
  }
}
