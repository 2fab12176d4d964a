/**
 * The scheduler's status table and the marker file a work unit's status
 * is persisted to. The table has ten rows of (code, label, storable) and
 * is always indexed by position, never by its code column.
 */
module StatusTable {
  import opened Wrappers
  import opened BoincErrors
  import opened Disks
  import opened WorkUnits
  import Paths
  import Numbers

  const Rows := 10

  /** The label column. */
  function Label(row: int): string
  {
    match row
    case 0 => "CREATE"
    case 1 => "INITIALIZING"
    case 2 => "DOWNLOADING"
    case 3 => "WAITING"
    case 4 => "COMPUTING"
    case 5 => "FINISHED"
    case 6 => "UPLOADING"
    case 7 => "COMPLETED"
    case 8 => "LOADING"
    case 9 => "FAILED"
    case _ => ""
  }

  /** The code column: the status each row was written for. It is never
   *  consulted. */
  function Code(row: int): int
  {
    match row
    case 0 => Created
    case 1 => Initializing
    case 2 => Downloading
    case 3 => Waiting
    case 4 => Computing
    case 5 => Finished
    case 6 => Uploading
    case 7 => Completed
    case 8 => Loading
    case 9 => Failed
    case _ => -1
  }

  /** The storable column. */
  function StorableColumn(row: int): int
  {
    if 2 <= row <= 7 then 1 else 0
  }

  /** Whether a change to `status` is written to the marker: row `status`
   *  must be storable. Failed (10) lies past the last row; that read is
   *  taken as "not storable". */
  predicate Storable(status: int)
  {
    0 <= status < Rows && StorableColumn(status) == 1
  }

  /** Because the enumeration has Defined at 2 and the table does not,
   *  every row from 2 on sits one status off: Downloading is stored with
   *  the label "WAITING", Completed is not stored at all, and only
   *  Defined through Uploading are stored. */
  lemma PositionalRows()
    ensures Label(Downloading) == "WAITING" && Code(Downloading) == Waiting
    ensures Label(Uploading) == "COMPLETED" && Code(Uploading) == Completed
    ensures forall s :: Storable(s) <==> Defined <= s <= Uploading
    ensures !Storable(Completed) && !Storable(Failed) && !Storable(Created) && !Storable(Initializing)
  {
  }

  /** The labels are pairwise different. */
  lemma LabelsDistinct(i: int, j: int)
    requires 0 <= i < Rows && 0 <= j < Rows && i != j
    ensures Label(i) != Label(j)
  {
  }

  /** The row the read loop settles on: the first row from `i` on whose
   *  label is `word`, or 0 when there is none. */
  function FirstMatch(word: string, i: nat): (r: nat)
    requires i <= Rows
    ensures r < Rows
    ensures r != 0 ==> i <= r && Label(r) == word && forall k :: i <= k < r ==> Label(k) != word
    ensures r == 0 && i == 0 ==> Label(0) == word || forall k :: 0 <= k < Rows ==> Label(k) != word
    decreases Rows - i
  {
    if i == Rows then 0
    else if Label(i) == word then i
    else FirstMatch(word, i + 1)
  }

  /** The status a marker holding `word` is read back as. */
  function LabelStatus(word: string): (r: nat)
    ensures r < Rows
    ensures (exists k :: 0 <= k < Rows && Label(k) == word) ==> Label(r) == word
    ensures (forall k :: 0 <= k < Rows ==> Label(k) != word) ==> r == 0
  {
    FirstMatch(word, 0)
  }

  /** Reading a label back gives the row it came from. */
  lemma LabelRoundTrip(row: int)
    requires 0 <= row < Rows
    ensures LabelStatus(Label(row)) == row
  {
    var r := LabelStatus(Label(row));
    assert Label(r) == Label(row);
    if r != row {
      LabelsDistinct(r, row);
    }
  }

  /** The label lookup of boincSchedulerReadWorkUnitStatus: the status is
   *  reset to 0 and the loop runs to LastStatus (11), so its last turn
   *  reads a row past the end of the table; that row matches nothing. */
  method LookupLabel(word: string) returns (status: int)
    ensures status == LabelStatus(word)
  {
    status := 0;
    var i := 0;
    while i < LastStatus
      invariant 0 <= i <= LastStatus
      invariant forall k :: 0 <= k < i && k < Rows ==> Label(k) != word
    {
      if i < Rows && word == Label(i) {
        status := i;
        return;
      }
      i := i + 1;
    }
  }

  /** The first whitespace-delimited word of a text, as fscanf("%s")
   *  reads it; empty when there is none. */
  function FirstWord(s: string): (w: string)
    ensures forall k :: 0 <= k < |w| ==> !Numbers.IsSpace(w[k])
  {
    var start := Numbers.LeadingSpaces(s);
    WordPrefix(s[start..])
  }

  function WordPrefix(s: string): (w: string)
    ensures |w| <= |s| && w == s[..|w|]
    ensures forall k :: 0 <= k < |w| ==> !Numbers.IsSpace(w[k])
    ensures |w| < |s| ==> Numbers.IsSpace(s[|w|])
  {
    if |s| == 0 || Numbers.IsSpace(s[0]) then "" else [s[0]] + WordPrefix(s[1..])
  }

  /** A word without white space is read back whole. */
  lemma {:induction false} WordPrefixWhole(w: string)
    requires forall k :: 0 <= k < |w| ==> !Numbers.IsSpace(w[k])
    ensures WordPrefix(w) == w
    decreases |w|
  {
    if |w| > 0 {
      WordPrefixWhole(w[1..]);
      assert [w[0]] + w[1..] == w;
    }
  }

  /** Labels are upper-case words. */
  lemma LabelLetters(row: int)
    requires 0 <= row < Rows
    ensures |Label(row)| > 0
    ensures forall k :: 0 <= k < |Label(row)| ==> 'A' <= Label(row)[k] <= 'Z'
  {
    match row
    case 0 => case 1 => case 2 => case 3 => case 4 =>
    case 5 => case 6 => case 7 => case 8 => case 9 =>
  }

  /** A label is read back whole. */
  lemma LabelIsOneWord(row: int)
    requires 0 <= row < Rows
    ensures FirstWord(Label(row)) == Label(row)
  {
    var l := Label(row);
    LabelLetters(row);
    assert Numbers.LeadingSpaces(l) == 0;
    assert l[0..] == l;
    WordPrefixWhole(l);
  }

  // ---------------------------------------------------------------
  // The marker file

  const MarkerName := "workunit.status"
  const TmpMarkerName := ".workunit.status"

  function MarkerPath(workingDir: string): string
  {
    Paths.Joined(workingDir, MarkerName)
  }

  function TmpMarkerPath(workingDir: string): string
  {
    Paths.Joined(workingDir, TmpMarkerName)
  }

  /** The temporary marker path fits the 255-byte buffer. */
  predicate MarkerFits(workingDir: string)
  {
    |TmpMarkerPath(workingDir)| < PathSize
  }

  /** The two marker files are different files. */
  lemma MarkerPathsDiffer(workingDir: string)
    ensures MarkerPath(workingDir) != TmpMarkerPath(workingDir)
  {
    var p := if Paths.EndsWithSeparator(workingDir) || |workingDir| == 0 then workingDir else workingDir + [Paths.Separator];
    assert !Paths.IsAbsolute(MarkerName) && !Paths.IsAbsolute(TmpMarkerName);
    assert |MarkerPath(workingDir)| == |p| + |MarkerName|;
    assert |TmpMarkerPath(workingDir)| == |p| + |TmpMarkerName|;
  }

  /** The file-system outcomes of one marker write or read. */
  datatype MarkerIo = MarkerIo(openable: bool, writable: bool, unlinkable: bool, renamable: bool, readable: bool)

  /** The marker write of boincSchedulerSetWorkUnitStatus: the label of
   *  row `status` goes to ".workunit.status", which is then renamed over
   *  "workunit.status". Opening with "w+" creates or empties the
   *  temporary file even when the write then fails. */
  function WriteMarker(d: Disk, workingDir: string, status: int, io: MarkerIo): (r: (Option<Error>, Disk))
    requires 0 <= status < Rows
  {
    var tmp := TmpMarkerPath(workingDir);
    if !MarkerFits(workingDir) || !io.openable then
      (Some(Createf(ErrorType, FileSystem, "Cannot open " + tmp + " (w+)")), d)
    else if !io.writable then
      (Some(Createf(ErrorType, FileSystem, "Failed to write the status")), Write(d, tmp, ""))
    else
      RenameFile(Write(d, tmp, Label(status)), tmp, MarkerPath(workingDir), io.unlinkable, io.renamable)
  }

  /** The marker is replaced as a whole: afterwards it holds either what
   *  it held before or the new label, and no other file but the
   *  temporary one changes. */
  lemma MarkerAtomic(d: Disk, workingDir: string, status: int, io: MarkerIo)
    requires 0 <= status < Rows
    ensures var after := WriteMarker(d, workingDir, status, io).1;
      || (Contents(after, MarkerPath(workingDir)) == Contents(d, MarkerPath(workingDir))
          && Exists(after, MarkerPath(workingDir)) == Exists(d, MarkerPath(workingDir)))
      || (Contents(after, MarkerPath(workingDir)) == Label(status) && Exists(after, MarkerPath(workingDir)))
    ensures var after := WriteMarker(d, workingDir, status, io).1;
      forall p :: p != MarkerPath(workingDir) && p != TmpMarkerPath(workingDir) ==> Contents(after, p) == Contents(d, p)
  {
    MarkerPathsDiffer(workingDir);
  }

  /** boincSchedulerReadWorkUnitStatus on the disk: no marker leaves the
   *  status alone (Success(None)); a marker that cannot be opened is a
   *  file-system error; otherwise its first word is looked up. */
  function ReadMarker(d: Disk, workingDir: string, readable: bool): (r: Result<Option<int>, Error>)
    ensures !Exists(d, MarkerPath(workingDir)) ==> r == Success(None)
    ensures Exists(d, MarkerPath(workingDir)) && !readable ==> r.Failure? && r.error.code == FileSystem
    ensures Exists(d, MarkerPath(workingDir)) && readable ==>
      r.Success? && r.value.Some? && 0 <= r.value.value < Rows
  {
    var path := MarkerPath(workingDir);
    if !Exists(d, path) then Success(None)
    else if !readable then Failure(Createf(ErrorType, FileSystem, "Cannot read file " + path))
    else Success(Some(LabelStatus(FirstWord(Contents(d, path)))))
  }

  /** A completed marker write is read back as the status written. */
  lemma MarkerRoundTrip(d: Disk, workingDir: string, status: int, io: MarkerIo)
    requires 0 <= status < Rows && MarkerFits(workingDir)
    requires io.openable && io.writable && io.renamable
    ensures WriteMarker(d, workingDir, status, io).0.None? || !io.unlinkable
    ensures ReadMarker(WriteMarker(d, workingDir, status, io).1, workingDir, true) == Success(Some(status))
  {
    MarkerPathsDiffer(workingDir);
    var after := WriteMarker(d, workingDir, status, io).1;
    assert Contents(after, MarkerPath(workingDir)) == Label(status);
    LabelIsOneWord(status);
    LabelRoundTrip(status);
  }
}
