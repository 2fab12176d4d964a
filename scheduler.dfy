/**
 * The scheduler: two work-unit slots, the event queue and the
 * configuration, and the handler that pops one ready event and runs one
 * step of a slot's life cycle (Created, Initializing, Downloading,
 * Waiting, Computing, Finished, Uploading, Completed or Failed, then an
 * erase back to Created). The specification functions these methods are
 * proved against are in module Scheduling.
 */
module Scheduler {
  import opened Wrappers
  import opened BoincErrors
  import opened Disks
  import opened WorkUnits
  import opened StatusTable
  import opened Scheduling
  import EventQueue
  import Configuration
  import Proxy
  import Transfers

  /** What a slot's record must satisfy: it knows its own index, its
   *  directory fits the path buffers and its lists are linked. */
  ghost predicate SlotValid(wu: WorkUnit, i: int)
    reads wu
  {
    wu.index == i && |wu.workingDir| < PathSize && WellLinked(wu.manifest)
  }

  /** A slot record as the load leaves it: the recovered status, work and
   *  error, in directory `wd`, with a fresh record's progress and date. */
  ghost predicate Holds(wu: WorkUnit, r: Recovery, wd: string, index: int)
    reads wu
  {
    && r.aborted.None? && wu.status == r.status && wu.manifest == r.manifest && wu.error == r.error
    && wu.workingDir == wd && wu.index == index && wu.progress == 0.0 && wu.dateStatusChange == 0
  }

  class Scheduler {
    const slots: array<WorkUnit?>
    const queue: EventQueue.Queue<Event>
    const config: Configuration.Configuration
    /** The file system the slots' directories live on. */
    var disk: Disk

    /** An event other than the recovery event designates an occupied
     *  slot. */
    predicate Posted(ev: Event)
      reads slots
    {
      ev.eventType == LoadEvent || (0 <= ev.index < slots.Length && slots[ev.index] != null)
    }

    /** The event designates an occupied slot. */
    predicate Designates(ev: Event)
      reads slots
    {
      0 <= ev.index < slots.Length && slots[ev.index] != null
    }

    ghost predicate Valid()
      reads this, slots, slots[..], queue, config
    {
      && slots.Length == SlotCount
      && queue.Valid() && config.Valid()
      && (slots[0] != null && slots[1] != null ==> slots[0] != slots[1])
      && (slots[0] != null ==> SlotValid(slots[0], 0))
      && (slots[1] != null ==> SlotValid(slots[1], 1))
      && (forall e :: e in queue.entries ==> Posted(e.data))
    }

    /** The status of slot `i`, None while it is empty. */
    function StatusAt(i: int): Option<int>
      reads slots, slots[..]
      requires 0 <= i < slots.Length
    {
      if slots[i] == null then None else Some(slots[i].status)
    }

    /** The statuses of the two slots, as the counting loops see them. */
    function Statuses(): (r: seq<Option<int>>)
      reads slots, slots[..]
      requires slots.Length == SlotCount
    {
      [StatusAt(0), StatusAt(1)]
    }

    /** The record in slot `index`, as a frame. */
    function SlotObject(index: int): set<object>
      reads slots
    {
      if 0 <= index < slots.Length && slots[index] != null then {slots[index]} else {}
    }

    /** The records in all slots, as a frame. */
    ghost function SlotObjects(): set<object>
      reads slots
    {
      set i | 0 <= i < slots.Length && slots[i] != null :: slots[i] as object
    }

    /** Slot `index` holds a new record for `wd` (directory made on the
     *  disk `cleared`), the other slot is untouched and a Created event
     *  for the slot is queued at `now`. */
    ghost predicate Restarted(index: int, wd: string, cleared: Disk, mkdirOk: bool, now: nat, before: seq<WorkUnit?>, q: Scheduling.Queue)
      reads this, slots, slots[..], queue
      requires 0 <= index < slots.Length == |before|
    {
      var wu := slots[index];
      && wu != null && wu.status == Created && wu.manifest == EmptyManifest
      && wu.workingDir == wd && wu.index == index && wu.error == CreationError(cleared, wd, mkdirOk)
      && wu.progress == 0.0 && wu.dateStatusChange == 0
      && disk == MakeDir(cleared, wd, mkdirOk)
      && slots[..] == before[index := wu]
      && queue.entries == EventQueue.Insert(q, now, Event(Created, index, 0))
    }

    /** The first slots hold the records `recs` recovered from the slot
     *  directories under `dir`, in slot order. */
    ghost predicate LoadedSlots(dir: string, recs: seq<Recovery>)
      reads slots, slots[..]
    {
      && (|recs| > 0 && slots.Length > 0 ==> slots[0] != null && Holds(slots[0], recs[0], SlotDirectory(dir, 0), 0))
      && (|recs| > 1 && slots.Length > 1 ==> slots[1] != null && Holds(slots[1], recs[1], SlotDirectory(dir, 1), 1))
    }

    /** boincSchedulerCreate: two empty slots and the recovery event
     *  queued at time 0. */
    constructor (config: Configuration.Configuration, disk: Disk)
      requires config.Valid()
      ensures Valid() && fresh(slots) && fresh(queue)
      ensures this.config == config && this.disk == disk
      ensures slots[..] == [null, null]
      ensures queue.entries == [EventQueue.Entry(0, Event(LoadEvent, 0, 0))]
    {
      this.config := config;
      this.disk := disk;
      slots := new WorkUnit?[SlotCount](_ => null);
      queue := new EventQueue.Queue<Event>();
      new;
      queue.Put(0, Event(LoadEvent, 0, 0));
    }

    /** boincQueuePut of an event for an occupied slot (or of the
     *  recovery event). */
    method Post(time: nat, ev: Event)
      requires Valid() && Posted(ev)
      modifies queue
      ensures Valid()
      ensures queue.entries == EventQueue.Insert(old(queue.entries), time, ev)
    {
      InsertMembers(queue.entries, time, ev);
      queue.Put(time, ev);
    }

    /** boincSchedulerRegenerate. */
    method Regenerate(delay: int, ev: Event, maxtries: int, error: Option<Error>, now: nat) returns (err: Option<Error>)
      requires Valid() && Posted(ev)
      modifies queue
      ensures Valid()
      ensures queue.entries == Retry(old(queue.entries), delay, ev, maxtries, error, now).0
      ensures err == Retry(old(queue.entries), delay, ev, maxtries, error, now).1
    {
      RetryCases(queue.entries, delay, ev, maxtries, error, now);
      var tries := ev.nbtries + 1;
      var wait := delay;
      if wait <= 0 {
        wait := 10 + tries * 10;
      }
      if maxtries > 0 && tries == maxtries {
        if error.Some? {
          err := Some(Error(Fatal, error.value.code, error.value.message, 0));
        } else {
          err := Some(Error(Fatal, 0, Some("Maximum number of tries exceeded"), 0));
        }
      } else {
        var retried := ev.(nbtries := tries);
        Post(now + wait, retried);
        err := None;
      }
    }

    /** boincSchedulerCountDownloading, CountComputing and CountUploading:
     *  the occupied slots whose status is in `wanted`. */
    method CountSlots(wanted: set<int>) returns (n: nat)
      requires Valid()
      ensures n == CountIn(Statuses(), wanted)
    {
      n := 0;
      var i := 0;
      while i < slots.Length
        invariant 0 <= i <= slots.Length
        invariant n == CountIn(Statuses()[..i], wanted)
      {
        CountSnoc(Statuses()[..i], StatusAt(i), wanted);
        assert Statuses()[..i + 1] == Statuses()[..i] + [StatusAt(i)];
        if slots[i] != null && slots[i].status in wanted {
          n := n + 1;
        }
        i := i + 1;
      }
      assert Statuses()[..i] == Statuses();
    }

    /** boincSchedulerSetWorkUnitStatus with the bounds check as intended:
     *  an index that designates no slot is an Internal error. Otherwise
     *  the record's status is set and, when it changed and its table row
     *  is storable, the marker is written; a failed write is not
     *  reported. */
    method SetWorkUnitStatus(index: int, status: int, io: MarkerIo, now: nat) returns (err: Option<Error>)
      requires Valid() && 0 <= status < LastStatus
      requires !OutOfRange(index) ==> slots[index] != null
      modifies this, SlotObject(index)
      ensures Valid()
      ensures OutOfRange(index) ==> err == Some(IndexError(index)) && disk == old(disk)
      ensures !OutOfRange(index) ==> err.None?
      ensures !OutOfRange(index) ==>
        var wu := slots[index];
        && wu.StatusPart() == SetStatusOutcome(old(wu.StatusPart()), status, now).1
        && disk == Persist(old(disk), wu.workingDir, old(wu.status), status, io)
        && wu.manifest == old(wu.manifest) && wu.workingDir == old(wu.workingDir)
        && wu.error == old(wu.error) && wu.index == old(wu.index)
    {
      if OutOfRange(index) {
        return Some(IndexError(index));
      }
      var wu := slots[index];
      var changed := wu.SetStatus(status, now);
      if changed && Storable(status) {
        var (_, d) := WriteMarker(disk, wu.workingDir, status, io);
        disk := d;
      }
      err := None;
    }

    /** boincSchedulerReadWorkUnitStatus: no marker leaves the status
     *  alone; an unreadable marker is a file-system error; otherwise the
     *  status becomes the row whose label is the marker's first word. */
    method ReadWorkUnitStatus(wu: WorkUnit, readable: bool) returns (err: Option<Error>)
      requires Valid() && 0 <= wu.index < SlotCount && slots[wu.index] == wu
      modifies wu`status
      ensures Valid()
      ensures match ReadMarker(disk, wu.workingDir, readable)
        case Failure(e) => err == Some(e) && wu.status == old(wu.status)
        case Success(None) => err.None? && wu.status == old(wu.status)
        case Success(Some(s)) => err.None? && wu.status == s
    {
      var path := MarkerPath(wu.workingDir);
      if !Exists(disk, path) {
        return None;
      }
      if !readable {
        return Some(Createf(ErrorType, FileSystem, "Cannot read file " + path));
      }
      var word := FirstWord(Contents(disk, path));
      var s := LookupLabel(word);
      wu.status := s;
      err := None;
    }

    /** boincProxyLoadWorkUnit on a slot's record: the saved work reply
     *  for its directory is parsed into it. */
    method LoadWork(wu: WorkUnit, env: Env) returns (err: Option<Error>)
      requires Valid() && 0 <= wu.index < SlotCount && slots[wu.index] == wu
      modifies wu`manifest
      ensures Valid()
      ensures (err, wu.manifest) == Proxy.LoadWorkUnit(old(wu.manifest), wu.workingDir, env.workReply(Proxy.RequestWorkFile(wu.workingDir)))
    {
      var reply := env.workReply(Proxy.RequestWorkFile(wu.workingDir));
      Proxy.LoadKeepsLinks(wu.manifest, wu.workingDir, reply);
      var loaded := Proxy.LoadWorkUnit(wu.manifest, wu.workingDir, reply);
      err := loaded.0;
      wu.manifest := loaded.1;
    }

    /** boincSchedulerInitializeWorkUnit: work is requested for the slot
     *  and, when it arrives, the slot's Downloading event is queued. */
    method InitializeWorkUnit(wu: WorkUnit, env: Env, now: nat) returns (err: Option<Error>)
      requires Valid() && 0 <= wu.index < SlotCount && slots[wu.index] == wu
      modifies wu`manifest, queue, config.parameter
      ensures Valid()
      ensures (err, wu.manifest, config.Values()) == RequestWork(old(wu.manifest), old(config.Values()), wu.workingDir, env)
      ensures err.None? ==> queue.entries == EventQueue.Insert(old(queue.entries), now, Event(Downloading, wu.index, 0))
      ensures err.Some? ==> queue.entries == old(queue.entries)
    {
      if env.workPost.Some? {
        return env.workPost;
      }
      var reply := Proxy.RequestWorkFile(wu.workingDir);
      var ignored := config.UpdateFromFile(reply, env.workReply(reply), env.host, env.configOpen, env.configRenamed);
      var e := LoadWork(wu, env);
      if e.Some? {
        return e;
      }
      Post(now, Event(Downloading, wu.index, 0));
      err := None;
    }

    /** The download loop of boincSchedulerDownload, from disk `d0`: the
     *  files are fetched in list order and the first failure ends it. */
    method DownloadFiles(wu: WorkUnit, d0: Disk, net: Transfers.Network) returns (err: Option<Error>, d: Disk)
      requires |wu.workingDir| < PathSize && Transfers.Linked(wu.manifest.table, wu.manifest.files)
      ensures (err, d) == Transfers.DownloadAll(wu, d0, wu.manifest.files, net)
    {
      var files := wu.manifest.files;
      d := d0;
      var i := 0;
      err := None;
      while i < |files| && err.None?
        invariant 0 <= i <= |files|
        invariant err.None? ==> Transfers.DownloadAll(wu, d, files[i..], net) == Transfers.DownloadAll(wu, d0, files, net)
        invariant err.Some? ==> (err, d) == Transfers.DownloadAll(wu, d0, files, net)
      {
        assert files[i..][0] == files[i] && files[i..][1..] == files[i + 1..];
        var fi := wu.manifest.table[files[i]];
        if !HasFlag(fi, Generated) && wu.FileNeedsDownload(Some(fi), d, net.md5) {
          var request := Proxy.DownloadRequest(fi, wu.workingDir);
          if request.Failure? {
            err := Some(request.error);
          } else {
            var body := net.fetch(request.value.url);
            if body.Failure? {
              err := Some(body.error);
            } else if request.value.path.Some? {
              d := Write(d, request.value.path.value, body.value);
            }
          }
        }
        i := i + 1;
      }
    }

    /** boincSchedulerDownload: the loop over the work unit's files, then
     *  the slot's Waiting event. */
    method Download(wu: WorkUnit, net: Transfers.Network, now: nat) returns (err: Option<Error>)
      requires Valid() && 0 <= wu.index < SlotCount && slots[wu.index] == wu
      modifies this, queue
      ensures Valid()
      ensures (err, disk) == Transfers.DownloadAll(wu, old(disk), wu.manifest.files, net)
      ensures err.None? ==> queue.entries == EventQueue.Insert(old(queue.entries), now, Event(Waiting, wu.index, 0))
      ensures err.Some? ==> queue.entries == old(queue.entries)
    {
      var d;
      err, d := DownloadFiles(wu, disk, net);
      disk := d;
      if err.None? {
        Post(now, Event(Waiting, wu.index, 0));
      }
    }

    /** boincSchedulerUpload: the loop over the result's files, then the
     *  slot's Completed event. */
    method Upload(wu: WorkUnit, net: Transfers.Network, now: nat) returns (err: Option<Error>)
      requires Valid() && 0 <= wu.index < SlotCount && slots[wu.index] == wu
      modifies queue
      ensures Valid()
      ensures err == Transfers.UploadAll(wu.manifest.table, ResultFileIds(wu.manifest), net)
      ensures err.None? ==> queue.entries == EventQueue.Insert(old(queue.entries), now, Event(WorkUnits.Completed, wu.index, 0))
      ensures err.Some? ==> queue.entries == old(queue.entries)
    {
      var table := wu.manifest.table;
      var files := ResultFileIds(wu.manifest);
      var i := 0;
      err := None;
      while i < |files| && err.None?
        invariant 0 <= i <= |files|
        invariant err.None? ==> Transfers.UploadAll(table, files[i..], net) == Transfers.UploadAll(table, files, net)
        invariant err.Some? ==> err == Transfers.UploadAll(table, files, net)
        modifies {}
      {
        Transfers.UploadStep(table, files, net, i);
        var fi := table[files[i]];
        if Transfers.Uploaded(fi) {
          err := net.upload(fi);
        }
        i := i + 1;
      }
      if err.None? {
        assert files[i..] == [];
        Post(now, Event(WorkUnits.Completed, wu.index, 0));
      }
    }

    /** boincWorkUnitCreate for slot `index`: a new record for `wd` (its
     *  directory made when missing) takes the slot. */
    method NewSlot(index: int, wd: string, mkdirOk: bool) returns (wu: WorkUnit)
      requires Valid() && 0 <= index < SlotCount && |wd| < PathSize
      modifies this`disk, slots
      ensures Valid() && fresh(wu)
      ensures wu.status == Created && wu.manifest == EmptyManifest && wu.workingDir == wd && wu.index == index
      ensures wu.error == CreationError(old(disk), wd, mkdirOk) && wu.progress == 0.0 && wu.dateStatusChange == 0
      ensures disk == MakeDir(old(disk), wd, mkdirOk)
      ensures slots[..] == old(slots[..])[index := wu]
    {
      wu := new WorkUnit(wd, Exists(disk, wd), mkdirOk);
      disk := MakeDir(disk, wd, mkdirOk);
      wu.index := index;
      slots[index] := wu;
    }

    /** boincSchedulerErase: the slot's directory is removed and a new
     *  Created record for the same directory and index takes the slot. */
    method Erase(index: int, env: Env, now: nat) returns (err: Option<Error>)
      requires Valid() && 0 <= index < SlotCount && slots[index] != null
      modifies this, slots, queue
      ensures Valid()
      ensures var wd := old(slots[index].workingDir);
        var (removed, cleared) := RemoveDirectory(old(disk), wd, env.removal);
        && err == removed
        && (removed.Some? ==> disk == cleared && slots[..] == old(slots[..]) && queue.entries == old(queue.entries))
        && (removed.None? ==> fresh(slots[index]) && Restarted(index, wd, cleared, env.mkdirOk, now, old(slots[..]), old(queue.entries)))
    {
      var wd := slots[index].workingDir;
      var (removed, cleared) := RemoveDirectory(disk, wd, env.removal);
      disk := cleared;
      if removed.Some? {
        return removed;
      }
      var renewed := NewSlot(index, wd, env.mkdirOk);
      Post(now, Event(Created, index, 0));
      err := None;
    }

    /** boincSchedulerCompleted: the slot is marked Completed, the result
     *  reported as failed or not, and the slot erased. */
    method Completed(index: int, failed: bool, env: Env, now: nat) returns (err: Option<Error>)
      requires Valid() && 0 <= index < SlotCount && slots[index] != null
      modifies this, slots, slots[index], queue
      ensures Valid()
      ensures var wu := old(slots[index]);
        var wd := old(wu.workingDir);
        var (failure, after) := Finish(old(disk), wd, failed, env);
        && wu.StatusPart() == SetStatusOutcome(old(wu.StatusPart()), WorkUnits.Completed, now).1
        && wu.manifest == old(wu.manifest) && wu.error == old(wu.error) && wu.workingDir == wd
        && err == failure
        && (err.Some? ==> disk == after && slots[..] == old(slots[..]) && queue.entries == old(queue.entries))
        && (err.None? ==> fresh(slots[index]) && Restarted(index, wd, after, env.mkdirOk, now, old(slots[..]), old(queue.entries)))
    {
      err := SetWorkUnitStatus(index, WorkUnits.Completed, env.marker, now);
      var report := env.report(failed);
      if report.Some? {
        return report;
      }
      err := Erase(index, env, now);
    }

    /** The failure branch shared by the Initializing, Downloading,
     *  Uploading, Completed and Failed rows: the error is recorded on the
     *  slot (boincSchedulerSetWorkUnitError) and the event retried after
     *  `delay`, without limit. */
    method Defer(wu: WorkUnit, ev: Event, e: Option<Error>, delay: int, now: nat) returns (err: Option<Error>)
      requires Valid() && Designates(ev) && slots[ev.index] == wu
      modifies wu`error, queue
      ensures Valid() && err.None? && wu.error == e
      ensures queue.entries == Retry(old(queue.entries), delay, ev, 0, None, now).0
    {
      wu.SetError(e);
      UnlimitedRetriesRequeue(delay, ev, 0, None, now);
      err := Regenerate(delay, ev, 0, None, now);
    }

    /** The Created, Waiting and Finished rows of the event table: the
     *  slot takes status `from`; when no slot is in `phase` it moves on
     *  to `to` and that event is queued at once, otherwise the event is
     *  retried 5 seconds later, without limit. */
    method Promote(ev: Event, from: int, to: int, phase: set<int>, io: MarkerIo, now: nat) returns (err: Option<Error>)
      requires Valid() && Designates(ev) && 0 <= from < LastStatus && 0 <= to < LastStatus
      modifies this, slots[ev.index], queue
      ensures Valid() && err.None?
      ensures var wu := slots[ev.index];
        var first := SetStatusOutcome(old(wu.StatusPart()), from, now).1;
        var d1 := Persist(old(disk), wu.workingDir, old(wu.status), from, io);
        && wu.manifest == old(wu.manifest) && wu.error == old(wu.error) && wu.workingDir == old(wu.workingDir)
        && if CountIn(old(Statuses())[ev.index := Some(from)], phase) == 0 then
             && wu.StatusPart() == SetStatusOutcome(first, to, now).1
             && disk == Persist(d1, wu.workingDir, from, to, io)
             && queue.entries == EventQueue.Insert(old(queue.entries), now, Event(to, ev.index, 0))
           else
             && wu.StatusPart() == first && disk == d1
             && queue.entries == Retry(old(queue.entries), 5, ev, 0, None, now).0
    {
      var i := ev.index;
      err := SetWorkUnitStatus(i, from, io, now);
      assert Statuses() == old(Statuses())[i := Some(from)];
      var busy := CountSlots(phase);
      if busy == 0 {
        err := SetWorkUnitStatus(i, to, io, now);
        Post(now, Event(to, i, 0));
      } else {
        err := Regenerate(5, ev, 0, None, now);
      }
    }

    /** The Initializing row: a failed work request is recorded on the
     *  slot and retried after the error's delay, without limit. */
    method HandleInitializing(ev: Event, env: Env, now: nat) returns (err: Option<Error>)
      requires Valid() && Designates(ev)
      modifies slots[ev.index], queue, config.parameter
      ensures Valid() && err.None?
      ensures var wu := slots[ev.index];
        var (e, m, v) := RequestWork(old(wu.manifest), old(config.Values()), wu.workingDir, env);
        && wu.manifest == m && config.Values() == v && wu.StatusPart() == old(wu.StatusPart()) && wu.workingDir == old(wu.workingDir)
        && (e.None? ==> wu.error == old(wu.error) && queue.entries == EventQueue.Insert(old(queue.entries), now, Event(Downloading, ev.index, 0)))
        && (e.Some? ==> wu.error == e && queue.entries == Retry(old(queue.entries), DelayOf(e), ev, 0, None, now).0)
    {
      var wu := slots[ev.index];
      var e := InitializeWorkUnit(wu, env, now);
      if e.Some? {
        err := Defer(wu, ev, e, DelayOf(e), now);
        return;
      }
      err := None;
    }

    /** The Downloading row: the slot takes status Downloading and its
     *  input files are fetched; a failure is recorded on the slot and
     *  retried after the error's delay, without limit. */
    method HandleDownloading(ev: Event, env: Env, now: nat) returns (err: Option<Error>)
      requires Valid() && Designates(ev)
      modifies this, slots[ev.index], queue
      ensures Valid() && err.None?
      ensures var wu := slots[ev.index];
        var d1 := Persist(old(disk), wu.workingDir, old(wu.status), Downloading, env.marker);
        var (e, d2) := Transfers.DownloadAll(wu, d1, wu.manifest.files, env.net);
        && wu.StatusPart() == SetStatusOutcome(old(wu.StatusPart()), Downloading, now).1
        && wu.manifest == old(wu.manifest) && wu.workingDir == old(wu.workingDir) && disk == d2
        && (e.None? ==> wu.error == old(wu.error) && queue.entries == EventQueue.Insert(old(queue.entries), now, Event(Waiting, ev.index, 0)))
        && (e.Some? ==> wu.error == e && queue.entries == Retry(old(queue.entries), DelayOf(e), ev, 0, None, now).0)
    {
      var wu := slots[ev.index];
      err := SetWorkUnitStatus(ev.index, Downloading, env.marker, now);
      var e := Download(wu, env.net, now);
      if e.Some? {
        err := Defer(wu, ev, e, DelayOf(e), now);
      }
    }

    /** The Uploading row's give-up branch: the slot takes status Failed
     *  and the Failed event is queued at once. */
    method FailSlot(wu: WorkUnit, ev: Event, io: MarkerIo, now: nat) returns (err: Option<Error>)
      requires Valid() && Designates(ev) && slots[ev.index] == wu
      modifies this, wu, queue
      ensures Valid() && err.None? && disk == old(disk)
      ensures wu.StatusPart() == SetStatusOutcome(old(wu.StatusPart()), Failed, now).1
      ensures wu.manifest == old(wu.manifest) && wu.workingDir == old(wu.workingDir) && wu.error == old(wu.error)
      ensures queue.entries == EventQueue.Insert(old(queue.entries), now, Event(Failed, ev.index, 0))
    {
      err := SetWorkUnitStatus(ev.index, Failed, io, now);
      Post(now, Event(Failed, ev.index, 0));
    }

    /** The Uploading row: a file-system failure after ten or more tries
     *  fails the slot (status Failed, Failed event queued at once); any
     *  other failure is recorded and retried after its delay, without
     *  limit. */
    method HandleUploading(ev: Event, env: Env, now: nat) returns (err: Option<Error>)
      requires Valid() && Designates(ev)
      modifies this, slots[ev.index], queue
      ensures Valid() && err.None? && disk == old(disk)
      ensures var wu := slots[ev.index];
        var e := Transfers.UploadAll(wu.manifest.table, ResultFileIds(wu.manifest), env.net);
        var givesUp := BoincErrors.Code(e) == FileSystem && ev.nbtries >= 10;
        && wu.manifest == old(wu.manifest) && wu.workingDir == old(wu.workingDir)
        && (e.None? ==>
              && wu.StatusPart() == old(wu.StatusPart()) && wu.error == old(wu.error)
              && queue.entries == EventQueue.Insert(old(queue.entries), now, Event(WorkUnits.Completed, ev.index, 0)))
        && (e.Some? && givesUp ==>
              && wu.StatusPart() == SetStatusOutcome(old(wu.StatusPart()), Failed, now).1 && wu.error == old(wu.error)
              && queue.entries == EventQueue.Insert(old(queue.entries), now, Event(Failed, ev.index, 0)))
        && (e.Some? && !givesUp ==>
              && wu.StatusPart() == old(wu.StatusPart()) && wu.error == e
              && queue.entries == Retry(old(queue.entries), DelayOf(e), ev, 0, None, now).0)
    {
      var wu := slots[ev.index];
      var e := Upload(wu, env.net, now);
      if e.None? {
        err := None;
      } else if BoincErrors.Code(e) == FileSystem && ev.nbtries >= 10 {
        err := FailSlot(wu, ev, env.marker, now);
      } else {
        err := Defer(wu, ev, e, DelayOf(e), now);
      }
    }

    /** The Completed and Failed rows: the slot is completed (reported
     *  and erased); a failure there is recorded on the old record and
     *  retried, without limit. After a genuine completion the user's
     *  work-unit total goes up by one and the configuration is stored. */
    method HandleFinal(ev: Event, env: Env, now: nat) returns (err: Option<Error>)
      requires Valid() && Designates(ev) && (ev.eventType == WorkUnits.Completed || ev.eventType == Failed)
      modifies this, slots, slots[ev.index], queue, config.parameter
      ensures Valid()
      ensures var wu := old(slots[ev.index]);
        var wd := old(wu.workingDir);
        var (failure, after) := Finish(old(disk), wd, ev.eventType == Failed, env);
        && wu.StatusPart() == SetStatusOutcome(old(wu.StatusPart()), WorkUnits.Completed, now).1
        && wu.manifest == old(wu.manifest) && wu.workingDir == wd
        && (failure.Some? ==>
              && wu.error == failure && err.None?
              && disk == after && slots[..] == old(slots[..]) && config.Values() == old(config.Values())
              && queue.entries == Retry(old(queue.entries), 0, ev, 0, None, now).0)
        && (failure.None? ==>
              && fresh(slots[ev.index])
              && Restarted(ev.index, wd, after, env.mkdirOk, now, old(slots[..]), old(queue.entries)))
        && (failure.None? && ev.eventType == Failed ==> err.None? && config.Values() == old(config.Values()))
        && (failure.None? && ev.eventType == WorkUnits.Completed ==>
              && config.Values() == old(config.Values())[Configuration.UserTotalWorkunits :=
                   Some(Truncate(Configuration.NumberText(1 + old(config.GetNumber(Configuration.UserTotalWorkunits, env.host))), Configuration.MaxStringBuffSize - 1))]
              && (env.configOpen ==> err == env.configRenamed)
              && (!env.configOpen ==> err.Some?))
    {
      var wu := slots[ev.index];
      var failure := Completed(ev.index, ev.eventType == Failed, env, now);
      if failure.Some? {
        err := Defer(wu, ev, failure, 0, now);
        return;
      }
      if ev.eventType == WorkUnits.Completed {
        err := CountCompletion(env);
        return;
      }
      err := None;
    }

    /** After a genuine completion the user's work-unit total goes up by
     *  one and the configuration is stored; the outcome of the store is
     *  the handler's. */
    method CountCompletion(env: Env) returns (err: Option<Error>)
      requires Valid()
      modifies config.parameter
      ensures Valid()
      ensures config.Values() == old(config.Values())[Configuration.UserTotalWorkunits :=
        Some(Truncate(Configuration.NumberText(1 + old(config.GetNumber(Configuration.UserTotalWorkunits, env.host))), Configuration.MaxStringBuffSize - 1))]
      ensures env.configOpen ==> err == env.configRenamed
      ensures !env.configOpen ==> err.Some?
    {
      Configuration.TableKinds();
      var total := 1 + config.GetNumber(Configuration.UserTotalWorkunits, env.host);
      err := config.SetNumber(Configuration.UserTotalWorkunits, total);
      var document;
      err, document := config.Store(env.host, env.configOpen, env.configRenamed);
    }

    /** The recovery step of the slot loop of boincSchedulerLoad: the
     *  status is read from the marker and, from Downloading on, the saved
     *  work reply parsed again. */
    method ReloadSlot(wu: WorkUnit, env: Env) returns (err: Option<Error>)
      requires Valid() && 0 <= wu.index < SlotCount && slots[wu.index] == wu
      requires wu.status == Created && wu.manifest == EmptyManifest
      modifies wu`status, wu`manifest
      ensures Valid()
      ensures (err, wu.status, wu.manifest) == Reread(ReadMarker(disk, wu.workingDir, env.marker.readable), wu.workingDir, env)
    {
      var wd := wu.workingDir;
      ghost var read := ReadMarker(disk, wd, env.marker.readable);
      err := ReadWorkUnitStatus(wu, env.marker.readable);
      if err.None? && wu.status >= Downloading {
        assert read == Success(Some(wu.status));
        err := LoadWork(wu, env);
      }
    }

    /** The failure branch of the slot loop of boincSchedulerLoad: the
     *  slot's directory is removed and, when that works, a new record for
     *  it takes the slot. */
    method DiscardSlot(index: int, wd: string, env: Env) returns (err: Option<Error>, wu: WorkUnit?)
      requires Valid() && 0 <= index < SlotCount && |wd| < PathSize && slots[index] != null
      modifies this`disk, slots
      ensures Valid()
      ensures var (removed, cleared) := RemoveDirectory(old(disk), wd, env.removal);
        && err == removed
        && (removed.Some? ==> disk == cleared && wu == slots[index] == old(slots[index]) && slots[..] == old(slots[..]))
        && (removed.None? ==>
              && wu != null && fresh(wu) && slots[..] == old(slots[..])[index := wu]
              && wu.status == Created && wu.manifest == EmptyManifest && wu.workingDir == wd && wu.index == index
              && wu.error == CreationError(cleared, wd, env.mkdirOk) && wu.progress == 0.0 && wu.dateStatusChange == 0
              && disk == MakeDir(cleared, wd, env.mkdirOk))
    {
      var (removed, cleared) := RemoveDirectory(disk, wd, env.removal);
      disk := cleared;
      err := removed;
      wu := slots[index];
      if removed.None? {
        wu := NewSlot(index, wd, env.mkdirOk);
      }
    }

    /** The record part of one turn of the slot loop of
     *  boincSchedulerLoad, for slot `index` working in `wd`: a record is
     *  created and recovered; when recovery fails the directory is removed
     *  and a new record takes its place, unless the removal fails too. */
    method RecoverRecord(index: int, wd: string, env: Env) returns (err: Option<Error>, wu: WorkUnit)
      requires Valid() && 0 <= index < SlotCount && |wd| < PathSize
      modifies this`disk, slots
      ensures Valid() && fresh(wu) && slots[..] == old(slots[..])[index := wu]
      ensures var r := RecoverSlot(old(disk), wd, env);
        && disk == r.disk && err == r.aborted
        && (err.None? ==> Holds(wu, r, wd, index))
    {
      ghost var r := RecoverSlot(disk, wd, env);
      wu := NewSlot(index, wd, env.mkdirOk);
      err := ReloadSlot(wu, env);
      if err.None? {
        assert r == Recovery(None, wu.status, wu.manifest, wu.error, disk);
      } else {
        ghost var failed := wu;
        var renewed;
        err, renewed := DiscardSlot(index, wd, env);
        assert err.Some? ==> r == Recovery(err, failed.status, failed.manifest, failed.error, disk);
        if err.None? {
          wu := renewed;
        }
      }
    }

    /** One turn of the slot loop of boincSchedulerLoad: the slot's record
     *  is recovered from `wd`, the slot's directory under `dir`, and its
     *  first event queued, at time 0 for a Computing slot. The slots
     *  before it keep the records `recs` already loaded. */
    method LoadSlot(index: int, wd: string, env: Env, now: nat, ghost dir: string, ghost recs: seq<Recovery>)
      returns (err: Option<Error>)
      requires Valid() && 0 <= index < SlotCount && |wd| < PathSize
      requires wd == SlotDirectory(dir, index) && |recs| == index && LoadedSlots(dir, recs)
      modifies this, slots, queue
      ensures Valid()
      ensures var r := RecoverSlot(old(disk), wd, env);
        && disk == r.disk && err == r.aborted
        && (err.None? ==>
              && queue.entries == EventQueue.Insert(old(queue.entries), StartTime(r.status, now), Event(r.status, index, 0))
              && LoadedSlots(dir, recs + [r]))
        && (err.Some? ==> queue.entries == old(queue.entries) && LoadedSlots(dir, recs))
    {
      ghost var r := RecoverSlot(disk, wd, env);
      var wu;
      err, wu := RecoverRecord(index, wd, env);
      if err.None? {
        assert LoadedSlots(dir, recs + [r]);
        Post(StartTime(wu.status, now), Event(wu.status, index, 0));
      }
    }

    /** The slot loop under `dir` has loaded the records `recs` from the
     *  disk `d0` and queue `q0`: `ds` and `qs` are the disks and queues
     *  before each turn and after the last, and the slots hold the
     *  records. */
    ghost predicate Loading(dir: string, env: Env, now: nat, d0: Disk, q0: Scheduling.Queue,
                            ds: seq<Disk>, qs: seq<Scheduling.Queue>, recs: seq<Recovery>)
      reads this, slots, slots[..], queue
    {
      && Turns(Recoverer(env), dir, now, ds, qs, recs) && ds[0] == d0 && qs[0] == q0
      && disk == ds[|recs|] && queue.entries == qs[|recs|]
      && LoadedSlots(dir, recs)
    }

    /** The slot loop under `dir` has stopped after loading `recs`: the
     *  next slot's directory could not be removed, which is `err`, and
     *  the queue is where the last loaded slot left it. */
    ghost predicate Stopped(dir: string, env: Env, now: nat, d0: Disk, q0: Scheduling.Queue,
                            ds: seq<Disk>, qs: seq<Scheduling.Queue>, recs: seq<Recovery>, err: Option<Error>)
      reads this, slots, slots[..], queue
    {
      && Turns(Recoverer(env), dir, now, ds, qs, recs) && ds[0] == d0 && qs[0] == q0
      && |recs| < SlotCount && queue.entries == qs[|recs|]
      && err == RecoverSlot(ds[|recs|], SlotDirectory(dir, |recs|), env).aborted
      && disk == RecoverSlot(ds[|recs|], SlotDirectory(dir, |recs|), env).disk
      && LoadedSlots(dir, recs)
    }

    /** One turn of the slot loop of boincSchedulerLoad, for slot
     *  `index` under the project directory `dir`: the ghost results
     *  extend the loop's history by the turn. */
    method LoadNext(index: int, env: Env, now: nat, ghost dir: string, ghost d0: Disk, ghost q0: Scheduling.Queue,
                    ghost ds: seq<Disk>, ghost qs: seq<Scheduling.Queue>, ghost recs: seq<Recovery>)
      returns (err: Option<Error>, ghost ds': seq<Disk>, ghost qs': seq<Scheduling.Queue>, ghost recs': seq<Recovery>)
      requires Valid() && 0 <= index < SlotCount && |recs| == index && dir == ProjectDir(config.Values(), env.host)
      requires Loading(dir, env, now, d0, q0, ds, qs, recs)
      modifies this, slots, queue
      ensures Valid()
      ensures err.None? ==> |recs'| == index + 1 && Loading(dir, env, now, d0, q0, ds', qs', recs')
      ensures err.Some? ==> ds' == ds && qs' == qs && recs' == recs && Stopped(dir, env, now, d0, q0, ds, qs, recs, err)
    {
      ghost var rec := RecoverSlot(disk, SlotDirectory(dir, index), env);
      var wd := SlotDirectory(config.GetString(Configuration.ProjectDirectory, PathSize, env.host), index);
      err := LoadSlot(index, wd, env, now, dir, recs);
      ds', qs', recs' := ds, qs, recs;
      if err.None? {
        TurnsExtend(Recoverer(env), dir, now, ds, qs, recs, rec, disk, queue.entries);
        ds', qs', recs' := ds + [disk], qs + [queue.entries], recs + [rec];
      }
    }

    /** The slot loop of boincSchedulerLoad: each slot in turn is
     *  recovered from its directory under the project directory and its
     *  first event queued, until a directory that cannot be removed ends
     *  the loop. The ghost results are the loop's history. */
    method LoadSlots(env: Env, now: nat)
      returns (err: Option<Error>, ghost ds: seq<Disk>, ghost qs: seq<Scheduling.Queue>, ghost recs: seq<Recovery>)
      requires Valid()
      modifies this, slots, queue
      ensures Valid()
      ensures var dir := ProjectDir(config.Values(), env.host);
        && (err.None? ==> |recs| == SlotCount && Loading(dir, env, now, old(disk), old(queue.entries), ds, qs, recs))
        && (err.Some? ==> Stopped(dir, env, now, old(disk), old(queue.entries), ds, qs, recs, err))
    {
      ghost var dir := ProjectDir(config.Values(), env.host);
      ghost var d0, q0 := disk, queue.entries;
      ds, qs, recs := [disk], [queue.entries], [];
      var index := 0;
      err := None;
      while index < SlotCount
        invariant 0 <= index <= SlotCount && |recs| == index && Valid() && err.None?
        invariant Loading(dir, env, now, d0, q0, ds, qs, recs)
      {
        err, ds, qs, recs := LoadNext(index, env, now, dir, d0, q0, ds, qs, recs);
        if err.Some? {
          return;
        }
        index := index + 1;
      }
    }

    /** boincSchedulerLoad: the proxy starts, a user without an
     *  authenticator authenticates, and the slots are loaded. */
    method Load(env: Env, now: nat) returns (err: Option<Error>)
      requires Valid()
      modifies this, slots, queue, config.parameter
      ensures Valid()
      ensures var r := LoadOutcome(old(config.Values()), old(disk), old(queue.entries), env, now);
        && err == r.err && config.Values() == r.values && disk == r.disk && queue.entries == r.queue
        && (Session(old(config.Values()), env).0.Some? ==> slots[..] == old(slots[..]))
        && LoadedSlots(ProjectDir(r.values, env.host), r.records)
    {
      err := Proxy.Initialize(config, env.host, env.proxyInit, env.projectReply, env.startOpen, env.startRenamed);
      if err.None? {
        if !config.HasParameter(Configuration.UserAuthenticator) {
          err := Proxy.AuthenticateUser(config, env.host, env.authFetch, env.authReply, env.configOpen, env.configRenamed);
        }
        if err.None? {
          ghost var ds, qs, recs;
          err, ds, qs, recs := LoadSlots(env, now);
          TurnsEnd(ProjectDir(config.Values(), env.host), env, now, ds, qs, recs, err, disk, queue.entries);
        }
      }
    }

    /** The recovery event's row: a load that fails without being Fatal
     *  is retried after 15 seconds, four tries in all, after which its
     *  error comes back as Fatal. */
    method HandleLoad(ev: Event, env: Env, now: nat) returns (err: Option<Error>)
      requires Valid() && ev.eventType == LoadEvent
      modifies this, slots, queue, config.parameter
      ensures Valid()
      ensures var r := LoadOutcome(old(config.Values()), old(disk), old(queue.entries), env, now);
        && config.Values() == r.values && disk == r.disk
        && LoadedSlots(ProjectDir(r.values, env.host), r.records)
        && (r.err.None? || r.err.value.kind == Fatal ==> err == r.err && queue.entries == r.queue)
        && (r.err.Some? && r.err.value.kind != Fatal ==>
              && queue.entries == Retry(r.queue, 15, ev, 4, r.err, now).0
              && err == Retry(r.queue, 15, ev, 4, r.err, now).1)
    {
      var failure := Load(env, now);
      if failure.Some? && failure.value.kind != Fatal {
        err := Regenerate(15, ev, 4, failure, now);
      } else {
        err := failure;
      }
    }

    /** boincSchedulerHasEvents: the head of the queue is due. */
    method HasEvents(now: nat) returns (r: bool)
      ensures r <==> EventQueue.Ready(queue.entries, now)
    {
      r := queue.HasEvent(now);
    }

    /** boincSchedulerChangeWorkUnitStatus: the application asks for a
     *  status by queueing its event for the record's slot, due now. */
    method ChangeWorkUnitStatus(wu: WorkUnit, status: int, now: nat) returns (err: Option<Error>)
      requires Valid() && 0 <= wu.index < slots.Length && slots[wu.index] == wu
      modifies queue
      ensures Valid() && err.None?
      ensures queue.entries == EventQueue.Insert(old(queue.entries), now, Event(status, wu.index, 0))
    {
      Post(now, Event(status, wu.index, 0));
      err := None;
    }

    /** boincSchedulerGetWorkUnit: the record in slot `index`, or null
     *  for an index that names no slot. */
    method GetWorkUnit(index: int) returns (wu: WorkUnit?)
      requires Valid()
      ensures (index < 0 || index >= SlotCount) ==> wu == null
      ensures 0 <= index < SlotCount ==> wu == slots[index]
    {
      if index < 0 || index >= slots.Length {
        return null;
      }
      wu := slots[index];
    }

    /** boincSchedulerGetWorkUnitStatus: a zeroed snapshot, filled from
     *  the record of slot `index` when the index names a slot. */
    method GetWorkUnitStatus(index: int) returns (r: StatusSnapshot)
      requires Valid() && (0 <= index < SlotCount ==> slots[index] != null)
      ensures (index < 0 || index >= SlotCount) ==> r == ZeroSnapshot
      ensures 0 <= index < SlotCount ==>
        var wu := slots[index];
        && r.status == wu.status && r.progress == wu.progress && r.delay == wu.manifest.delay
        && (wu.error.None? ==> r.errorType == 0 && r.errorCode == 0 && r.errorMessage == "")
        && (wu.error.Some? ==> r.errorType == wu.error.value.kind && r.errorCode == wu.error.value.code)
    {
      r := ZeroSnapshot;
      if index < 0 || index >= slots.Length {
        return;
      }
      r := slots[index].GetStatus(r);
    }

    /** The queue and the error a work-unit event `ev` leaves, from the
     *  queue `q`, where the scheduler had before the row the statuses
     *  `before`, the slots `oldSlots`, the disk `d` and the parameters
     *  `values`, and the event's slot the work `m`, the directory `wd` and
     *  the status `status`. Created, Waiting and Finished promote the slot
     *  when no slot is in the next phase and otherwise retry 5 seconds
     *  later; Initializing, Downloading and Uploading queue their
     *  successor or retry after the error's delay, a file-system upload
     *  failure from the tenth try on failing the slot instead; Completed
     *  and Failed queue the new record's Created event, or retry when the
     *  report or the erase fails; Computing and the types the table has
     *  no row for leave the scheduler as it was. */
    ghost predicate RowDone(ev: Event, env: Env, now: nat, q: Scheduling.Queue, err: Option<Error>,
                            before: seq<Option<int>>, oldSlots: seq<WorkUnit?>, d: Disk, values: Configuration.Values,
                            m: Manifest, wd: string, status: int)
      reads this, slots, slots[..], queue, config, config.parameter
    {
      var i := ev.index;
      && 0 <= i < |before|
      && (ev.eventType in {Created, Waiting, Finished} ==>
            var (from, to, phase) := PromotionRow(ev.eventType);
            && err.None?
            && (CountIn(before[i := Some(from)], phase) == 0 ==> queue.entries == EventQueue.Insert(q, now, Event(to, i, 0)))
            && (CountIn(before[i := Some(from)], phase) != 0 ==> queue.entries == Retry(q, 5, ev, 0, None, now).0))
      && (ev.eventType == Initializing ==>
            var e := RequestWork(m, values, wd, env).0;
            && err.None?
            && (e.None? ==> queue.entries == EventQueue.Insert(q, now, Event(Downloading, i, 0)))
            && (e.Some? ==> queue.entries == Retry(q, DelayOf(e), ev, 0, None, now).0))
      && (ev.eventType == Downloading ==>
            && err.None? && i < slots.Length && slots[i] != null
            && var wu := slots[i];
               && |wu.workingDir| < PathSize && Transfers.Linked(wu.manifest.table, wu.manifest.files)
               && var d1 := Persist(d, wu.workingDir, status, Downloading, env.marker);
                  var e := Transfers.DownloadAll(wu, d1, wu.manifest.files, env.net).0;
                  && (e.None? ==> queue.entries == EventQueue.Insert(q, now, Event(Waiting, i, 0)))
                  && (e.Some? ==> queue.entries == Retry(q, DelayOf(e), ev, 0, None, now).0))
      && (ev.eventType == Uploading ==>
            && WellLinked(m)
            && var e := Transfers.UploadAll(m.table, ResultFileIds(m), env.net);
            && err.None?
            && (e.None? ==> queue.entries == EventQueue.Insert(q, now, Event(WorkUnits.Completed, i, 0)))
            && (e.Some? && BoincErrors.Code(e) == FileSystem && ev.nbtries >= 10 ==>
                  queue.entries == EventQueue.Insert(q, now, Event(Failed, i, 0)))
            && (e.Some? && !(BoincErrors.Code(e) == FileSystem && ev.nbtries >= 10) ==>
                  queue.entries == Retry(q, DelayOf(e), ev, 0, None, now).0))
      && (ev.eventType in {WorkUnits.Completed, Failed} ==>
            var failure := Finish(d, wd, ev.eventType == Failed, env).0;
            && (failure.Some? ==> err.None? && queue.entries == Retry(q, 0, ev, 0, None, now).0)
            && (failure.None? ==> queue.entries == EventQueue.Insert(q, now, Event(Created, i, 0))))
      && (!Acting(ev.eventType) ==>
            && err.None? && queue.entries == q && disk == d && slots[..] == oldSlots
            && config.Valid() && config.Values() == values)
    }

    /** The rows of the event table before computing: Created and Waiting
     *  promote the slot, Initializing and Downloading do their phase's
     *  work. */
    method EarlyRow(ev: Event, env: Env, now: nat) returns (err: Option<Error>)
      requires Valid() && Designates(ev) && ev.eventType in {Created, Waiting, Initializing, Downloading}
      modifies this, slots[ev.index], queue, config.parameter
      ensures Valid() && slots[..] == old(slots[..])
      ensures RowDone(ev, env, now, old(queue.entries), err, old(Statuses()), old(slots[..]), old(disk), old(config.Values()),
                      old(slots[ev.index].manifest), old(slots[ev.index].workingDir), old(slots[ev.index].status))
    {
      if ev.eventType in {Created, Waiting} {
        var (from, to, phase) := PromotionRow(ev.eventType);
        err := Promote(ev, from, to, phase, env.marker, now);
      } else if ev.eventType == Initializing {
        err := HandleInitializing(ev, env, now);
      } else {
        err := HandleDownloading(ev, env, now);
      }
    }

    /** The rows of the event table from computing on: Finished promotes
     *  the slot, Uploading does its phase's work, Completed and Failed
     *  finish the slot; Computing hands the record to the application and
     *  changes nothing here, and an event of a type the table has no row
     *  for is dropped. */
    method LateRow(ev: Event, env: Env, now: nat) returns (err: Option<Error>)
      requires Valid() && Designates(ev) && ev.eventType !in {LoadEvent, Created, Waiting, Initializing, Downloading}
      modifies this, slots, slots[ev.index], queue, config.parameter
      ensures Valid()
      ensures RowDone(ev, env, now, old(queue.entries), err, old(Statuses()), old(slots[..]), old(disk), old(config.Values()),
                      old(slots[ev.index].manifest), old(slots[ev.index].workingDir), old(slots[ev.index].status))
    {
      if ev.eventType == Finished {
        err := Promote(ev, Finished, Uploading, UploadPhase, env.marker, now);
      } else if ev.eventType == Uploading {
        err := HandleUploading(ev, env, now);
      } else if ev.eventType in {WorkUnits.Completed, Failed} {
        err := HandleFinal(ev, env, now);
      } else {
        err := None;
      }
    }

    /** boincSchedulerHandleEvents: the due head of the queue is taken
     *  off and its row of the event table run on the rest of the queue:
     *  the recovery event loads the scheduler, retrying a load that fails
     *  without being Fatal 15 seconds later, four tries in all, and a
     *  work-unit event, which always designates an occupied slot, runs
     *  the row of its status (RowDone). The records, the disk and the
     *  configuration each row leaves are as its handler states. */
    method HandleEvents(env: Env, now: nat) returns (err: Option<Error>)
      requires Valid() && EventQueue.Ready(queue.entries, now)
      modifies this, slots, slots[..], queue, config.parameter
      ensures Valid()
      ensures var ev := old(queue.entries)[0].data;
        var rest := old(queue.entries)[1..];
        var i := ev.index;
        && (ev.eventType == LoadEvent ==>
              var r := LoadOutcome(old(config.Values()), old(disk), rest, env, now);
              && (r.err.None? || r.err.value.kind == Fatal ==> err == r.err && queue.entries == r.queue)
              && (r.err.Some? && r.err.value.kind != Fatal ==>
                    queue.entries == Retry(r.queue, 15, ev, 4, r.err, now).0 && err == Retry(r.queue, 15, ev, 4, r.err, now).1))
        && (ev.eventType != LoadEvent ==>
              && 0 <= i < SlotCount && old(slots[i]) != null
              && RowDone(ev, env, now, rest, err, old(Statuses()), old(slots[..]), old(disk), old(config.Values()),
                         old(slots[i].manifest), old(slots[i].workingDir), old(slots[i].status)))
    {
      assert old(queue.entries)[0] in old(queue.entries);
      var next := queue.Get(now);
      var ev := next.value;
      if ev.eventType == LoadEvent {
        err := HandleLoad(ev, env, now);
      } else if ev.eventType in {Created, Waiting, Initializing, Downloading} {
        err := EarlyRow(ev, env, now);
      } else {
        err := LateRow(ev, env, now);
      }
    }
  }
}
