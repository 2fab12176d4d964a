# boinc-lite scheduler, modelled in Dafny

boinc-lite is a small BOINC client library in C. A host program creates a
scheduler and then calls it in a loop. The scheduler owns two work-unit
slots and a time-ordered event queue, seeded with a recovery event at
time 0. Each call to `boincSchedulerHandleEvents` takes the due head of
the queue and runs one row of the event table for that slot:

- Created → Initializing: ask the project server for work;
- Downloading: fetch the input files;
- Waiting → Computing: hand the slot to the application;
- Finished → Uploading: send the result files;
- Completed or Failed: report the result, erase the slot's directory, and
  start over at Created.

Promotion from Created, Waiting and Finished happens only when no other
slot is in the next phase. Every failure goes through one backoff rule,
`boincSchedulerRegenerate`. A slot's status is persisted to a marker file
in its working directory, through a positional table of labels. When the
scheduler loads, the status is read back, and the work description is
parsed again from the saved server reply.

The model covers the scheduler and the parts it is built from:

- the error record (`errors.dfy`);
- path buffers (`paths.dfy`) and the event queue (`event_queue.dfy`);
- the work-unit record (`work_unit.dfy`);
- the typed parameter table of the configuration (`configuration.dfy`);
- the SAX handler state of the XML parser (`xml_parser.dfy`);
- the proxy's URL builder and reply callbacks (`proxy.dfy`);
- hex rendering of digests (`hash.dfy`);
- the status table and its marker file (`status_table.dfy`);
- the download and upload loops (`transfers.dfy`);
- the scheduler itself, on values (`scheduling.dfy`) and as a class over
  an array of slots (`scheduler.dfy`).

Code that updates state in place is modelled as classes whose methods are
proved against specification functions:

- the scheduler, with its slot array;
- the work-unit record;
- the configuration's parameter array;
- the queue;
- the parser state;
- path buffers.

The world outside the library appears as values passed in:

- the file system is a `Disk` value (`disk.dfy`), a map from paths to
  contents plus a set of directories; the outcomes of calls whose failure
  modes the model does not follow byte by byte are flags of `MarkerIo`
  and `Env`;
- the server's HTTP replies, the transfers (`Transfers.Network`) and the
  host's callback values (`Configuration.Host`) are parameters;
- the clock is a `now: nat` parameter.

Where the code and the design description disagree, the model follows the
code:

- The status table is indexed by position (src/BoincScheduler.c:65-76,
  401-402, 575). Because the enumeration has Defined at 2 and the table
  does not, Downloading is stored under the label "WAITING". The stored
  statuses are Defined through Uploading, not Downloading through
  Completed. Failed (10) indexes past the ten rows; the model reads that
  as "not storable" and "no label".
- `boincSchedulerSetWorkUnitStatus` returns no error even when writing the
  marker fails (src/BoincScheduler.c:618). So the "persist failed → retry"
  branches of the event table are unreachable, and the model keeps them
  unreachable.

## Model

| member | source | states |
|---|---|---|
| BoincErrors.Deref | src/BoincError.c:131-149 | reading a handle yields an error exactly when the pointer is not NULL |
| BoincErrors.Create | src/BoincError.c:71-90 | a successful allocation yields a heap record holding kind, code and message with delay 0; a failed one yields the static out-of-memory record |
| BoincErrors.Truncate | src/BoincError.c:92-100 | a bounded copy keeps a prefix of at most n characters, the whole text when it fits and exactly n characters otherwise |
| BoincErrors.Createf | src/BoincError.c:92-100 | the formatted error keeps kind and code with delay 0, and its message is a prefix of the text that fits the format buffer, equal to the text when it fits |
| BoincErrors.CreateWithDelay | src/BoincError.c:64-69 | the error is of the Delay type and reads back with the given code, message and delay |
| BoincErrors.Occured | src/BoincError.c:115-124 | the result is 0 iff there is no error; otherwise it is the error's code, or 1 when that code is 0 |
| BoincErrors.CreateThenRead | src/BoincError.c:71-90 | the accessors read back kind, code and message of a created error, or Fatal, -1 and "Out of memory" when allocation failed, which is a major error; the delay is 0 |
| BoincErrors.ReleaseOnlyAllocated | src/BoincError.c:102-113 | destroying releases a created error iff it was allocated, and never NULL or the static record |
| Paths.InitFilename | src/BoincUtil.c:41-48 | the name is copied iff it is shorter than the buffer |
| Paths.AppendFilename | src/BoincUtil.c:50-83 | an empty name leaves the path alone; otherwise the append succeeds iff the joined path and its terminator fit, and then yields the joined path |
| Paths.GetAbsolutePath | src/BoincUtil.c:85-94 | the result exists iff the base fits and the joined path fits, and is the base alone for an empty relative name |
| Paths.OneSeparator | src/BoincUtil.c:62-80 | a relative name is joined to a non-empty directory by exactly one separator, whether or not the directory ends with one |
| Paths.JoinedShape | src/BoincUtil.c:55-80 | a relative name extends the directory, an absolute one replaces it, and the joined path always ends with the name |
| Paths.AppendFits | src/BoincUtil.c:58-77 | a successful append leaves room for the terminator |
| Paths.PathBuffer.constructor | src/BoincUtil.c:41-48 | a buffer of the given size starts empty |
| Paths.PathBuffer.Init | src/BoincUtil.c:41-48 | the buffer takes the name iff it fits, and is unchanged otherwise |
| Paths.PathBuffer.Append | src/BoincUtil.c:50-83 | the buffer becomes the append's result when it succeeds, and is unchanged otherwise |
| Hash.HexDigit | src/linux-gnu/BoincHash.c:11 | each nibble becomes a lower-case hex digit, 0-9 then a-f |
| Hash.DigitValue | src/linux-gnu/BoincHash.c:11 | the value of a hex digit is a nibble whose digit is that character |
| Hash.HexOf | src/linux-gnu/BoincHash.c:7-13 | the rendering has two hex digits per byte |
| Hash.HexOfAt | src/linux-gnu/BoincHash.c:10-11 | byte i sits at positions 2i and 2i+1, high nibble first |
| Hash.DigitRoundTrip | src/linux-gnu/BoincHash.c:11 | reading a nibble's digit gives back the nibble |
| Hash.ByteRoundTrip | src/linux-gnu/BoincHash.c:11 | reading a byte's two digits gives back the byte |
| Hash.FromHexCons | src/linux-gnu/BoincHash.c:10-11 | reading two digits followed by more text reads their byte, then the rest |
| Hash.FromHexOfHex | src/linux-gnu/BoincHash.c:7-13 | the rendering is lossless: reading it back gives the bytes |
| Hash.HexOfAppend | src/linux-gnu/BoincHash.c:10-11 | rendering one more byte appends its two digits |
| Hash.Convert2Hex | src/linux-gnu/BoincHash.c:7-13 | the buffer holds the bytes' rendering followed by a terminator, and nothing beyond is touched; with no bytes nothing is written |
| Disks.RemoveTree | src/BoincUtil.c:100-144 | the directory and exactly the files and directories below it are gone, and the rest of the disk is unchanged |
| Disks.Write | src/BoincScheduler.c:585-596 | the written file holds the new contents, and every other path reads as before |
| Disks.Rename | src/BoincUtil.c:163 | the target reads as the source did, the source is gone, and every other path reads as before |
| Disks.MakeDir | src/BoincWorkUnit.c:90-96 | the directory exists afterwards iff it existed or mkdir succeeded; nothing else changes |
| Disks.PartialRemove | src/BoincUtil.c:108-140 | a walk stopped by a refusal leaves the path itself and the entries it had not reached; everything outside the path is unchanged and nothing is added |
| Disks.RemovalResumes | src/BoincUtil.c:100-144 | a later removal that goes through ends with the same disk as if the stopped one had never run |
| Disks.RemoveDirectory | src/BoincUtil.c:100-150 | a missing path is no error; an existing tree is removed, or a refusal is a Fatal file-system error that leaves the path and the entries not yet reached; there is no error exactly when the path is gone |
| Disks.RenameFile | src/BoincUtil.c:152-169 | the rename happens when the source exists and the file system consents, without error when the target could be unlinked; otherwise an Error-type -1 error leaves the disk as it was |
| WorkUnits.Resolve | src/BoincWorkUnit.c:145-150 | a list of positions designates the file infos at those positions, in order |
| WorkUnits.SetStatusOutcome | src/BoincWorkUnit.c:170-180 | the change flag is set iff the status differs; a change resets the progress and stamps the date; no change leaves the fields alone |
| WorkUnits.SetStatusIdempotent | src/BoincWorkUnit.c:170-180 | setting the same status a second time reports no change and changes nothing |
| WorkUnits.WorkUnit.constructor | src/BoincWorkUnit.c:71-99 | a zeroed record in status Created in the given directory, carrying the Fatal file-system error iff the missing directory could not be made |
| WorkUnits.WorkUnit.SetStatus | src/BoincWorkUnit.c:170-180 | the record's status fields follow SetStatusOutcome and the rest of the record is unchanged |
| WorkUnits.WorkUnit.SetError | src/BoincWorkUnit.c:182-189 | the new error replaces the old one and nothing else changes |
| WorkUnits.WorkUnit.GetStatus | src/BoincWorkUnit.c:154-168 | status, progress and delay are copied; the error fields are overwritten only when there is an error, and the message, truncated, only when the error has one |
| WorkUnits.WorkUnit.GetPath | src/BoincWorkUnit.c:191-201 | the path exists iff the directory and the joined name fit, and is the open name joined to the working directory |
| WorkUnits.WorkUnit.StatPath | src/BoincWorkUnit.c:209-214 | the path stat sees is the joined path, or the bare working directory when the append fails |
| WorkUnits.WorkUnit.NoDownloadIffVerified | src/BoincWorkUnit.c:222-241 | a file is skipped iff it exists on disk and its non-empty checksum equals the hex MD5 of its contents |
| WorkUnits.WorkUnit.NullFileNeedsDownload | src/BoincWorkUnit.c:203-207 | a missing file info or open name never exists and is always downloaded |
| WorkUnits.SnapshotMessageFits | src/BoincWorkUnit.c:164-165 | the message kept in a snapshot is a prefix of the error's message and fits the 256-byte field with its terminator |
| XmlParser.CutLast | src/linux-gnu/BoincXMLParser.c:71-74 | cutting at the last '>' never lengthens the path |
| XmlParser.StartStep | src/linux-gnu/BoincXMLParser.c:24-40 | an opening element empties the text buffer and goes one level deeper; after an error no callback runs and the index is -1 |
| XmlParser.DataStep | src/linux-gnu/BoincXMLParser.c:42-60 | text is appended only for an element with a non-negative index, cut to the buffer's capacity, and the buffer never overflows; nothing else changes |
| XmlParser.EndStep | src/linux-gnu/BoincXMLParser.c:62-80 | a closing element empties the buffer, resets the index and goes one level up; the end callback runs only with buffered text; the path loses its last segment, or is emptied at the root |
| XmlParser.Run | src/linux-gnu/BoincXMLParser.c:111-129 | feeding events in order keeps the text buffer within its capacity |
| XmlParser.Parse | src/linux-gnu/BoincXMLParser.c:83-133 | an unopenable file is error -1 when present and 1 when missing; no parser is Fatal -2; a read error is -3 and a syntax error -4, after the events delivered before them have run their callbacks; a whole document returns the callbacks' error |
| XmlParser.RunAppend | src/linux-gnu/BoincXMLParser.c:111-129 | running two event sequences in a row is running their concatenation |
| XmlParser.JoinPathAppend | src/linux-gnu/BoincXMLParser.c:30-32 | opening a nested element appends '>' and its name to the path |
| XmlParser.CutLastJoin | src/linux-gnu/BoincXMLParser.c:71-74 | cutting the last segment of a joined path gives the path of the enclosing elements |
| XmlParser.CutLastPastName | src/linux-gnu/BoincXMLParser.c:71-74 | cutting a path that ends with '>' and a name without '>' gives back the prefix |
| XmlParser.ErrorIsFinal | src/linux-gnu/BoincXMLParser.c:36-39 | once an error is recorded, no callback runs again: error and user value stay as they are whatever events follow |
| XmlParser.Parser.constructor | src/linux-gnu/BoincXMLParser.c:101-109 | the parser starts at level -1 with no error, an empty path and no open element |
| XmlParser.Parser.Start | src/linux-gnu/BoincXMLParser.c:24-40 | the in-place handler takes the StartStep state, keeps its invariant and pushes the element |
| XmlParser.Parser.Data | src/linux-gnu/BoincXMLParser.c:42-60 | the in-place handler takes the DataStep state and keeps its invariant |
| XmlParser.Parser.End | src/linux-gnu/BoincXMLParser.c:62-80 | the in-place handler takes the EndStep state, keeps its invariant and pops the element |
| XmlParser.PathAfterEnd | src/linux-gnu/BoincXMLParser.c:62-80 | closing an element below the first level restores the path of the enclosing elements |
| XmlParser.Lookup | src/linux-gnu/BoincXMLParser.c:135-142 | the value is the one paired with the first attribute of that name, and there is none iff no attribute has that name |
| XmlParser.GetAttributeValue | src/linux-gnu/BoincXMLParser.c:135-142 | the scan returns the first match of Lookup |
| XmlParser.AttributeCompare | src/linux-gnu/BoincXMLParser.c:144-152 | -1 iff the attribute is absent, 0 iff its value equals the given one, 1 iff it has another value |
| Numbers.Digits | src/BoincScheduler.c:562 | a number's decimal text is a non-empty run of digits |
| Numbers.LeadingDigits | src/BoincProxy.c:535 | the count is the length of the longest run of digits at the start |
| Numbers.LeadingSpaces | src/BoincProxy.c:535 | the count is the length of the longest run of white space at the start |
| Numbers.DigitsRoundTrip | src/BoincScheduler.c:562 | the digits printed for a natural number read back as that number |
| Numbers.LeadingDigitsStop | src/BoincProxy.c:535 | digits followed by a non-digit are exactly the leading run |
| Numbers.DigitPrefixRead | src/BoincProxy.c:535 | digits followed by a non-digit read as their value |
| Numbers.NoLeadingSpace | src/BoincProxy.c:535 | text starting with a sign or a digit is read from its start |
| Numbers.NegativeRead | src/BoincProxy.c:535 | a minus sign and digits read as the negated value |
| Numbers.NonNegativeRead | src/BoincProxy.c:535 | digits without a sign read as their value |
| Numbers.DecimalRoundTrip | src/BoincProxy.c:985-989 | the %d text of any integer, followed by a non-digit, reads back as the integer |
| Numbers.FixedRoundTrip | src/BoincConfiguration.c:376 | the fixed-point text of an integral value reads back as that value |
| Configuration.RootIsNoParameter | src/BoincConfiguration.c:69-116 | the document element's name is not the name of any parameter |
| Configuration.GetParameterFromName | src/BoincConfiguration.c:118-125 | the result is the first row with that name, and -1 iff no row has it |
| Configuration.FindName | src/BoincConfiguration.c:120-124 | the scan from a row finds the first row with that name at or after it, and -1 iff there is none |
| Configuration.NameResolves | src/BoincConfiguration.c:69-125 | every parameter's name looks up to that parameter |
| Configuration.NameUniqueFrom0To7 | src/BoincConfiguration.c:70-77 | the names of rows 0-7 occur in no other row |
| Configuration.NameUniqueFrom8To15 | src/BoincConfiguration.c:78-85 | the names of rows 8-15 occur in no other row |
| Configuration.NameUniqueFrom16To23 | src/BoincConfiguration.c:86-93 | the names of rows 16-23 occur in no other row |
| Configuration.NameUniqueFrom24To31 | src/BoincConfiguration.c:94-101 | the names of rows 24-31 occur in no other row |
| Configuration.NameUniqueFrom32To38 | src/BoincConfiguration.c:102-108 | the names of rows 32-38 occur in no other row |
| Configuration.NameUniqueFrom39To45 | src/BoincConfiguration.c:109-115 | the names of rows 39-45 occur in no other row |
| Configuration.TableKinds | src/BoincConfiguration.c:69-162 | every parameter is exactly one of string and number; the project paths are read-only and not stored; scheduler URL and authenticator are not stored; the authenticator, project URL and workunit total are writable, and the last two are stored |
| Configuration.ValueString | src/BoincConfiguration.c:380-397 | the copied text is shorter than the buffer: the callback's output for a callback parameter, else the stored value cut to len-1 characters, else empty |
| Configuration.SetNumberThenGet | src/BoincConfiguration.c:365-407 | a number set on a writable number parameter reads back as itself while its text fits the read buffer |
| Configuration.EntriesStep | src/BoincConfiguration.c:326-334 | the entries from a row on are that row's entry, if any, followed by those of the next rows |
| Configuration.EntriesAreRows | src/BoincConfiguration.c:326-334 | the stored entries are the rows' entries laid end to end |
| Configuration.EntriesAreStorable | src/BoincConfiguration.c:326-334 | every stored entry names a storable parameter that has a value, and its text is short enough to be read back whole |
| Configuration.ElementsLoad | src/BoincConfiguration.c:271-280 | parsing the elements of a stored document applies each entry in order and leaves the parser between elements |
| Configuration.DocumentLoads | src/BoincConfiguration.c:283-291 | parsing a stored document succeeds and applies its entries |
| Configuration.AppliedStep | src/BoincConfiguration.c:326-334 | applying the entries from a row on is applying that row's entry, then those of the next rows |
| Configuration.ByRowsBelow | src/BoincConfiguration.c:276-280 | applying rows from some index on leaves the parameters below it untouched |
| Configuration.ByRowsAt | src/BoincConfiguration.c:276-280 | applying rows from some index on gives each later parameter its own row's text, if it has one, and leaves it alone otherwise |
| Configuration.AppliedByRows | src/BoincConfiguration.c:271-280 | applying the stored entries by name is applying them by row, because every name resolves to its own row |
| Configuration.AppliedAt | src/BoincConfiguration.c:326-334 | after the entries from a row on are applied, each later parameter holds its stored text when it has one, and is unchanged otherwise |
| Configuration.StoreThenLoad | src/BoincConfiguration.c:283-342 | reading back what Store writes never fails, gives each stored parameter with non-empty text that text, and leaves every other parameter alone; a stored non-callback value that fits the buffer comes back unchanged |
| Configuration.StoreError | src/BoincConfiguration.c:313-342 | Store fails with an Error-type -1 error when the temporary file cannot be opened, and otherwise returns the rename's outcome |
| Configuration.UpdateOutcome | src/BoincConfiguration.c:283-291 | a file that cannot be opened or parsed leaves the values alone with an error; the update succeeds only when the store after it opens its file and renames it |
| Configuration.UpdateFromDocument | src/BoincConfiguration.c:271-291 | a file laid out like a stored configuration sets each parameter it names to its text, and the update then fails only as the store does |
| Configuration.RunKeepsSet | src/BoincConfiguration.c:271-280 | the parser callbacks never take a parameter's value away |
| Configuration.UpdateKeepsSet | src/BoincConfiguration.c:283-291 | an update, however the file ends, never takes a parameter's value away |
| Configuration.Configuration.constructor | src/BoincConfiguration.c:194-244 | a new configuration holds the created values |
| Configuration.Configuration.GetString | src/BoincConfiguration.c:380-397 | the copied text is ValueString of the current values |
| Configuration.Configuration.GetNumber | src/BoincConfiguration.c:399-407 | the number is the leading integer of the parameter's text, or 0 for a parameter that is neither a number nor a callback |
| Configuration.Configuration.SetInternalString | src/BoincConfiguration.c:165-191 | the parameter takes the value and every other parameter keeps its own |
| Configuration.Configuration.SetString | src/BoincConfiguration.c:352-363 | a read-only parameter fails with -1 and a non-string with -2, both changing nothing; otherwise only that parameter takes the value |
| Configuration.Configuration.SetNumber | src/BoincConfiguration.c:365-378 | a non-number fails with -1 and a read-only number with -2, both changing nothing; otherwise only that parameter takes the fixed-point text, cut to the buffer |
| Configuration.Configuration.StoreEntries | src/BoincConfiguration.c:326-334 | the loop writes exactly the entries of the storable parameters that have a value, in table order |
| Configuration.Configuration.Store | src/BoincConfiguration.c:313-342 | without a temporary file nothing is written and the -1 error names its path; otherwise the document of the entries is written and the rename's outcome is returned |
| Configuration.Configuration.Load | src/BoincConfiguration.c:283-311 | the values become what the parse leaves; no error returns Store's outcome, a major error is returned, and a minor one sets the host id to "0" and returns the host defaults' outcome |
| Configuration.Configuration.UpdateFromFile | src/BoincConfiguration.c:283-291 | the error and the new parameters are the update's outcome on the old parameters |
| Configuration.CreatedValues | src/BoincConfiguration.c:194-244 | exactly the project directory, the configuration file inside it and that file with ".tmp" appended are set |
| Configuration.CallbacksNeverFail | src/BoincConfiguration.c:271-280 | the configuration callbacks never record an error, so parsing fails only through the file or the XML |
| Transfers.WriteKeeps | src/BoincScheduler.c:249-250 | saving a downloaded file never removes another file |
| Transfers.DownloadKeeps | src/BoincScheduler.c:239-256 | the download loop never removes a file that was on disk |
| Transfers.DownloadedFilesPresent | src/BoincScheduler.c:239-256 | after a download loop without error, every input file with an open name and a path that fits is on disk where the existence check looks for it |
| Transfers.UploadAllFails | src/BoincScheduler.c:302-314 | the upload loop fails iff some generated, upload-marked file fails to upload, and then returns the error of such a file |
| Transfers.UploadStep | src/BoincScheduler.c:302-311 | one round of the upload loop: a sent file's failure ends the loop with its error, and any other file passes on to the files after it |
| StatusTable.PositionalRows | src/BoincScheduler.c:65-76 | the table is read by position: the Downloading row holds "WAITING" and the Uploading row "COMPLETED", and only the statuses from Defined to Uploading are stored; Completed, Failed, Created and Initializing are not |
| StatusTable.LabelsDistinct | src/BoincScheduler.c:65-76 | no two rows carry the same label |
| StatusTable.FirstMatch | src/BoincScheduler.c:399-406 | the read loop settles on the first row with the word as its label, and on 0 when no row has it |
| StatusTable.LabelStatus | src/BoincScheduler.c:399-406 | a word read back is a row whose label it is, or 0 when it is no label |
| StatusTable.LabelRoundTrip | src/BoincScheduler.c:399-406 | reading a row's label back gives that row |
| StatusTable.LookupLabel | src/BoincScheduler.c:399-406 | the lookup loop, including its last turn past the end of the table, returns LabelStatus of the word |
| StatusTable.FirstWord | src/BoincScheduler.c:387-388 | the word fscanf reads holds no white space |
| StatusTable.WordPrefix | src/BoincScheduler.c:387-388 | the word is the longest run of non-space characters at the start of the text |
| StatusTable.WordPrefixWhole | src/BoincScheduler.c:387-388 | a text without white space is read whole |
| StatusTable.LabelLetters | src/BoincScheduler.c:65-76 | every label is a non-empty word of upper-case letters |
| StatusTable.LabelIsOneWord | src/BoincScheduler.c:387-388 | a label written to the marker is read back whole |
| StatusTable.MarkerPathsDiffer | src/BoincScheduler.c:579-602 | the temporary marker and the marker are different files |
| StatusTable.MarkerAtomic | src/BoincScheduler.c:575-610 | the marker afterwards holds either its old contents or the new label, and no file other than the two markers changes |
| StatusTable.ReadMarker | src/BoincScheduler.c:365-409 | a missing marker leaves the status alone, an unopenable one is a file-system error, and a readable one yields a status within the table |
| StatusTable.MarkerRoundTrip | src/BoincScheduler.c:365-409 | a marker write that opens, writes and renames is read back as the status written, and reports no error unless an old marker could not be unlinked |
| EventQueue.InsertionPoint | src/BoincUtil.c:251-257 | the walk stops after every entry not later than the new time and before the first later one |
| EventQueue.InsertionPointUnique | src/BoincUtil.c:251-257 | the stopping point is the only index with that property |
| EventQueue.InsertContents | src/BoincUtil.c:238-264 | insertion adds exactly the new entry at the stopping point and keeps every other entry in its order |
| EventQueue.InsertSorted | src/BoincUtil.c:238-264 | insertion keeps the queue sorted by time |
| EventQueue.InsertAfterTies | src/BoincUtil.c:251-257 | in a sorted queue the new entry goes after exactly the entries not later than it, so ties are served in arrival order |
| EventQueue.TailSorted | src/BoincUtil.c:288-291 | removing the head keeps the rest sorted |
| EventQueue.Queue.constructor | src/BoincUtil.c:207-219 | a new queue is empty |
| EventQueue.Queue.Put | src/BoincUtil.c:238-264 | the list becomes Insert of the old list and stays sorted |
| EventQueue.Queue.HasEvent | src/BoincUtil.c:267-279 | an event is ready iff the queue is non-empty and its head is due |
| EventQueue.Queue.Get | src/BoincUtil.c:281-301 | a due head is removed and its data returned; otherwise nothing is returned and the queue is untouched |
| EventQueue.Queue.Destroy | src/BoincUtil.c:221-231 | every entry is unlinked and the queue is left empty |
| Proxy.QueryLengthExact | src/BoincProxy.c:93-107 | the length the loop counts, one separator plus the argument per argument, is exactly the length of the query it writes |
| Proxy.QueryLast | src/BoincProxy.c:94-107 | one more argument adds its separator and itself to the query |
| Proxy.PairSeparators | src/BoincProxy.c:98-105 | after complete pairs a name is preceded by '?' (first) or '&', and its value by '=' |
| Proxy.QueryAppendPair | src/BoincProxy.c:94-107 | a name/value pair after complete pairs adds "?name=value" first and "&name=value" after |
| Proxy.UrlHead | src/BoincProxy.c:84-91 | the head exists iff base and path are set, the base fits and the path can be appended, and is then the appended path |
| Proxy.UrlAsWritten | src/BoincProxy.c:81-110 | the URL is built iff the head exists and head plus query are at most the buffer size, and is then the head followed by the query |
| Proxy.QueryLengthPrefix | src/BoincProxy.c:93-97 | the length counted after some of the arguments never exceeds the total, so the loop fails iff the total is too long |
| Proxy.ConstructUrl | src/BoincProxy.c:81-110 | the loop returns UrlAsWritten |
| Proxy.UrlFillsBuffer | src/BoincProxy.c:93-97 | the `>` test accepts "ab?xy", five characters, for a five-byte buffer, leaving no byte for the terminator |
| Proxy.BoundedUrl | src/BoincProxy.c:81-110 | the corrected construction always leaves room for the terminator and agrees with the code as written whenever that URL leaves room |
| Proxy.RunOneElement | src/linux-gnu/BoincXMLParser.c:24-80 | a reply holding one element inside a root is handled by five handler steps in order |
| Proxy.ErrorMessageRejected | src/BoincProxy.c:240-244 | a reply carrying error_msg fails with an Error-type authentication error holding that message |
| Proxy.AuthenticatorAccepted | src/BoincProxy.c:245-251 | a reply carrying an authenticator yields it |
| Proxy.NoAuthenticatorRejected | src/BoincProxy.c:298-300 | a reply with neither element fails with "Authentication failed" |
| Proxy.Init | src/BoincProxy.c:193-221 | a failed HTTP start or fetch is the error and changes nothing; an unreadable description is an error that changes nothing; success needs the store after the update to succeed |
| Proxy.InitFromDocument | src/BoincProxy.c:193-221 | a project description listing parameters sets each to its text, and the start then fails only as the store does |
| Proxy.InitKeepsSet | src/BoincProxy.c:193-221 | starting the proxy never takes a parameter's value away |
| Proxy.Initialize | src/BoincProxy.c:193-221 | the error and the new parameters are those of the start on the old parameters |
| Proxy.Authenticate | src/BoincProxy.c:255-300 | an unset e-mail or password is an authentication error, a failed request fails, and success needs a non-empty e-mail and password hash and yields the authenticator parsed from auth.xml in the project directory |
| Proxy.AuthenticateUser | src/BoincProxy.c:255-309 | on failure the error is returned and the configuration is unchanged; on success only the authenticator changes and Store's outcome is returned |
| Proxy.AccountQuery | src/BoincProxy.c:277-281 | the account lookup's query is "?email_addr=<email>&passwd_hash=<hash>" |
| Proxy.WithNewest | src/BoincProxy.c:428-429 | replacing the newest file info changes no other entry and nothing but the table |
| Proxy.NewestNamed | src/BoincProxy.c:379-394 | the walk finds the newest file info with that name, and none iff no file info has it |
| Proxy.WithCurrentList | src/BoincProxy.c:386-388 | the list the current file_ref selects becomes the new list, and table and selection stay |
| Proxy.FlagNewest | src/BoincProxy.c:439-453 | a flag bit is or-ed into the newest file info and nothing else changes |
| Proxy.ElementAction | src/BoincProxy.c:396-528 | an opening element only adds file infos, leaves the work unit's list alone and starts application and result records with empty lists |
| Proxy.FlagCurrentHead | src/BoincProxy.c:514-520 | the main_program flag changes only the file table |
| Proxy.OpenNameEnd | src/BoincProxy.c:644-654 | an open name changes only the file table |
| Proxy.HeaderEnd | src/BoincProxy.c:542-643 | work-unit, result and application texts leave the file table and every list alone |
| Proxy.FileInfoAppended | src/BoincProxy.c:422-432 | every file_info element creates an empty file info as the newest one, and its text is not kept |
| Proxy.ExecutableFlag | src/BoincProxy.c:439-443 | the executable element sets its bit on the newest file info only |
| Proxy.GeneratedFlag | src/BoincProxy.c:444-448 | the generated_locally element sets its bit on the newest file info only |
| Proxy.UploadFlag | src/BoincProxy.c:449-453 | the upload_when_present element sets its bit on the newest file info only |
| Proxy.FileRefLinks | src/BoincProxy.c:620-623 | a workunit file_ref puts the newest file info of that name at the front of the work unit's list, and an unknown name changes nothing |
| Proxy.FirstValueWins | src/BoincProxy.c:542-560 | the work-unit name, the result name and an open name keep the first value they get |
| Proxy.NumericFields | src/BoincProxy.c:534-611 | nbytes also sets max_nbytes, rsc_memory_bound is written to the disk estimate and leaves the memory estimate alone, and request_delay is read as a number |
| Proxy.BeginKeepsLinks | src/BoincProxy.c:396-528 | the begin callback keeps every list entry pointing into the file table |
| Proxy.EndKeepsLinks | src/BoincProxy.c:530-659 | the end callback keeps every list entry pointing into the file table |
| Proxy.RunKeepsLinks | src/linux-gnu/BoincXMLParser.c:111-129 | feeding any events to the work callbacks keeps the lists linked |
| Proxy.ParseKeepsLinks | src/BoincProxy.c:667-677 | a whole parse keeps the lists linked, whatever the file holds |
| Proxy.LoadWorkUnit | src/BoincProxy.c:667-677 | a parse without error, without file info and with a delay is a Delay/Server "Empty work unit" error carrying the delay; otherwise the delay is cleared and the parse error is returned |
| Proxy.LoadKeepsLinks | src/BoincProxy.c:667-677 | loading a work unit keeps its lists linked |
| Proxy.SaveName | src/BoincProxy.c:1029-1033 | a file is saved under its open name when that is non-empty, else under its name |
| Proxy.DownloadRequest | src/BoincProxy.c:1023-1057 | a file without a URL is an Internal error; otherwise it is fetched from its URL into the working directory under its save name, and made executable iff it is flagged executable or main program |
| Scheduling.RetryDelay | src/BoincScheduler.c:540-542 | the retry delay is always positive and is the requested delay whenever one is given |
| Scheduling.RegenerateOutcome | src/BoincScheduler.c:536-557 | a requeued event has one more try and is due strictly after now; giving up yields a Fatal error with no delay |
| Scheduling.Retry | src/BoincScheduler.c:536-557 | a retry returns no error exactly when the event is requeued, and leaves the queue unchanged when it gives up |
| Scheduling.RetryGivesUpAtLimit | src/BoincScheduler.c:536-557 | a retry gives up exactly when the counted try reaches a positive limit, with the last error's code and message, or code 0 and "Maximum number of tries exceeded"; a sorted queue stays sorted |
| Scheduling.RetryAddsOneEntry | src/BoincScheduler.c:556 | a requeue adds exactly one entry to the queue, the event with one more try, and loses none |
| Scheduling.UnlimitedRetriesRequeue | src/BoincScheduler.c:544 | with no positive limit a retry never gives up and keeps the event's type and slot |
| Scheduling.BackoffGrows | src/BoincScheduler.c:540-541 | without a requested delay the event is due 10 + 10 times its tries later, ten seconds more for each try |
| Scheduling.Retried | src/BoincScheduler.c:538 | retrying k times keeps the event's type and slot and adds k to its try count |
| Scheduling.GivesUpAtLimit | src/BoincScheduler.c:544-555 | a fresh event retried with a limit is requeued limit - 1 times and dropped on the next failure with a Fatal error carrying the last error's code and message |
| Scheduling.LoadGivesUpOnFourthFailure | src/BoincScheduler.c:742 | the recovery event is requeued 15 seconds later three times and its fourth failure comes back Fatal |
| Scheduling.PromotionRow | src/BoincScheduler.c:749-772 | the Created, Waiting and Finished rows move a slot from the row's status to the next one, and the next status is in the phase that must be empty |
| Scheduling.CountIn | src/BoincScheduler.c:621-678 | the number of occupied slots in a wanted status is at most the number of slots |
| Scheduling.CountZeroIff | src/BoincScheduler.c:621-678 | the count is zero if and only if no occupied slot is in a wanted status |
| Scheduling.CountSnoc | src/BoincScheduler.c:627-635 | each slot adds one to the count exactly when it is occupied and in a wanted status |
| Scheduling.Persist | src/BoincScheduler.c:573-610 | the disk is untouched when the status did not change or its row is not stored |
| Scheduling.PersistedStatusReadBack | src/BoincScheduler.c:575-610 | a status change written with a successful open, write and rename reads back from the marker as the new status |
| Scheduling.PersistTouchesOnlyMarkers | src/BoincScheduler.c:575-610 | persisting a status changes no file but the marker and its temporary file |
| Scheduling.GuardNeverFires | src/BoincScheduler.c:561-563 | the bounds check as written rejects no index, while -1 and 2 designate no slot |
| Scheduling.IndexError | src/BoincScheduler.c:562 | the bounds check's error is an Internal error of the Error type |
| Scheduling.SlotDirectory | src/BoincScheduler.c:448-450 | a slot works in the project directory joined with its number when that fits the 255-byte buffer, else in the project directory itself; it always fits |
| Scheduling.SlotDirectoriesDiffer | src/BoincScheduler.c:442-450 | when both paths fit, the two slots work in different directories |
| Scheduling.CreationError | src/BoincWorkUnit.c:90-96 | creating a record leaves no error exactly when its directory exists afterwards |
| Scheduling.RecoverSlot | src/BoincScheduler.c:453-487 | a slot's recovery ends the load only with a Fatal FileSystem error; otherwise the slot's status is a row of the status table |
| Scheduling.RecoveryKeepsLinks | src/BoincScheduler.c:462-487 | a recovered slot's work description has its lists linked |
| Scheduling.RereadKeepsLinks | src/BoincScheduler.c:464-466 | reloading the saved work reply keeps the lists linked |
| Scheduling.NoMarkerStartsCreated | src/BoincScheduler.c:375-379 | a slot without a status marker is loaded as Created with no work |
| Scheduling.StoredStatusRecovered | src/BoincScheduler.c:462-466 | a marker holding a row's label brings the slot back in that status; from Downloading on, with the work its saved reply describes, when that reply loads |
| Scheduling.FailedReloadRestarts | src/BoincScheduler.c:468-487 | a slot whose saved work no longer loads is erased and restarted as Created with no work, or, when the removal is refused, ends the load with the directory still there and the entries already removed gone |
| Scheduling.PersistThenRecover | src/BoincScheduler.c:575-610 | a status written before the program stopped is the status the slot is loaded with, when the write, the read and any needed reload succeed |
| Scheduling.LoadFrom | src/BoincScheduler.c:442-497 | the slot loop ends only with a Fatal FileSystem error, and loads every remaining slot when it ends without one |
| Scheduling.TurnLoad | src/BoincScheduler.c:442-497 | a slot that does not end the load is followed by the loop from the next slot on the disk and queue it left |
| Scheduling.TurnsLoad | src/BoincScheduler.c:442-497 | a history of loop turns from any slot on is the loop from that slot, up to where the history stops |
| Scheduling.TurnsEnd | src/BoincScheduler.c:442-497 | a history that stops with every slot loaded, or at a slot whose directory cannot be removed, is the loop's outcome |
| Scheduling.TurnsExtend | src/BoincScheduler.c:442-497 | one more turn extends the loop's history |
| Scheduling.LoadQueuesFirstEvents | src/BoincScheduler.c:493-496 | the loop queues exactly one event per loaded slot, for its recovered status and due now or at 0 when computing, and keeps the queue sorted |
| Scheduling.Session | src/BoincScheduler.c:429-440 | a failed proxy start ends the session with what the start left; after the start only the authenticator can change, nothing changes when one is set, and a successful session leaves one set |
| Scheduling.StoreFailureKeepsAuthenticator | src/BoincScheduler.c:429-440 | after an authentication the authenticator is kept whatever the store did, so the next session only starts the proxy and does not authenticate again |
| Scheduling.ProjectDir | src/BoincScheduler.c:448 | the project directory fits the 255-byte path buffer |
| Scheduling.LoadOutcome | src/BoincScheduler.c:411-515 | the load leaves the parameters the session leaves and at most one record per slot |
| Scheduling.LoadOutcomes | src/BoincScheduler.c:411-515 | a load fails in its session changing nothing else, or fails Fatal on a directory it cannot remove, or loads both slots, queues one event per slot in a sorted queue and leaves the user authenticated |
| Scheduling.InsertMembers | src/BoincUtil.c:238-264 | after an insertion the queue holds the new entry and the old ones and nothing else |
| Scheduling.RequestWork | src/BoincProxy.c:756-896 | a failed post leaves the work unit and the configuration alone with its error; otherwise the configuration is updated from the saved reply and the reply is loaded into the work unit, whose outcome is the error |
| Scheduling.UpdateErrorIgnored | src/BoincProxy.c:883-888 | the store after the configuration update, and the configuration itself, never change the request's error or work |
| Scheduling.RequestSetsParameters | src/BoincProxy.c:883-888 | a reply listing configuration parameters sets each of them to its text |
| Scheduling.RequestKeepsLinks | src/BoincProxy.c:756-896 | a work request keeps the work unit's lists linked |
| Scheduling.ResultFileIds | src/BoincScheduler.c:295-303 | the result's files of a linked work unit are entries of its file table |
| Scheduling.Finish | src/BoincScheduler.c:680-700 | a failed report is the error and leaves the disk alone; otherwise the removal's outcome and disk are; without an error the directory is gone, and with one an existing directory is still there |
| Scheduler.Scheduler.constructor | src/BoincScheduler.c:99-126 | a new scheduler has two empty slots and only the recovery event, queued at time 0 |
| Scheduler.Scheduler.Post | src/BoincUtil.c:238-264 | an event is inserted into the queue by time |
| Scheduler.Scheduler.Regenerate | src/BoincScheduler.c:536-557 | the queue and the error are those of the retry |
| Scheduler.Scheduler.CountSlots | src/BoincScheduler.c:621-678 | the counting loop returns the number of occupied slots in a wanted status |
| Scheduler.Scheduler.SetWorkUnitStatus | src/BoincScheduler.c:559-619 | an index designating no slot is an Internal error and changes nothing; otherwise the status and date change as the record's setter does, the marker is written when the status changed and is stored, and nothing else of the record changes |
| Scheduler.Scheduler.ReadWorkUnitStatus | src/BoincScheduler.c:365-409 | no marker keeps the status; an unreadable one is an error keeping the status; otherwise the status is the row labelled by the marker's first word |
| Scheduler.Scheduler.LoadWork | src/BoincScheduler.c:464-466 | the slot's saved work reply is parsed into its record |
| Scheduler.Scheduler.InitializeWorkUnit | src/BoincScheduler.c:192-216 | the error, work and configuration are the work request's outcome, and the Downloading event is queued at once exactly when the request succeeds |
| Scheduler.Scheduler.DownloadFiles | src/BoincScheduler.c:239-256 | the loop's error and disk are the download function's: generated and already present files are skipped, and the first failed request or fetch ends the loop |
| Scheduler.Scheduler.Download | src/BoincScheduler.c:218-269 | every input file is downloaded in order until one fails, and the Waiting event is queued only when none does |
| Scheduler.Scheduler.Upload | src/BoincScheduler.c:284-327 | every result file is uploaded in order until one fails, and the Completed event is queued only when none does |
| Scheduler.Scheduler.NewSlot | src/BoincScheduler.c:453-459 | a new Created record with no work takes the slot, its directory made when missing, and its error says whether the directory exists |
| Scheduler.Scheduler.Erase | src/BoincScheduler.c:329-363 | the slot's directory is removed and a new Created record for it takes the slot with its Created event queued; a failed removal keeps the record and queue, the disk being what the stopped removal left |
| Scheduler.Scheduler.Completed | src/BoincScheduler.c:680-700 | the slot is marked Completed, the result reported and the slot erased; an error in either keeps the slots and queue, the disk being untouched after a failed report and partly cleared after a failed removal |
| Scheduler.Scheduler.Defer | src/BoincScheduler.c:779-780 | the error is recorded on the slot and the event retried after the delay without limit |
| Scheduler.Scheduler.Promote | src/BoincScheduler.c:749-772 | the slot takes the row's status; when no slot is in the next phase it moves on to the next status and that event is queued at once, otherwise the event is retried 5 seconds later |
| Scheduler.Scheduler.HandleInitializing | src/BoincScheduler.c:775-784 | the slot's work and the configuration are the request's outcome; a successful request queues Downloading at once; a failed one is recorded on the slot and retried after the error's delay |
| Scheduler.Scheduler.HandleDownloading | src/BoincScheduler.c:786-802 | the slot takes status Downloading and its files are fetched; success queues Waiting, a failure is recorded and retried after its delay |
| Scheduler.Scheduler.FailSlot | src/BoincScheduler.c:870-877 | the slot takes status Failed and the Failed event is queued at once |
| Scheduler.Scheduler.HandleUploading | src/BoincScheduler.c:866-883 | success queues Completed; a FileSystem failure after ten or more tries fails the slot; any other failure is recorded and retried after its delay |
| Scheduler.Scheduler.HandleFinal | src/BoincScheduler.c:885-904 | the slot is completed; a failure is recorded and retried at once, the disk being what `Finish` leaves; a genuine completion raises the user's work-unit total by one and stores the configuration |
| Scheduler.Scheduler.CountCompletion | src/BoincScheduler.c:894-900 | the user's work-unit total goes up by one and the store's outcome is returned |
| Scheduler.Scheduler.ReloadSlot | src/BoincScheduler.c:462-466 | the status is read from the marker and, from Downloading on, the saved work reply parsed again |
| Scheduler.Scheduler.DiscardSlot | src/BoincScheduler.c:468-487 | the slot's directory is removed and a new Created record takes the slot; a failed removal keeps the old record, leaves what the stopped removal left and is the error |
| Scheduler.Scheduler.RecoverRecord | src/BoincScheduler.c:453-487 | the slot's new record holds what the recovery function says, on the disk it says |
| Scheduler.Scheduler.LoadSlot | src/BoincScheduler.c:442-497 | one turn of the slot loop recovers the slot and queues its first event, or ends the load leaving the queue alone |
| Scheduler.Scheduler.LoadNext | src/BoincScheduler.c:442-497 | one turn extends the loop's history, or stops it with the removal error |
| Scheduler.Scheduler.LoadSlots | src/BoincScheduler.c:442-497 | the slot loop loads both slots, or stops at the first slot whose directory cannot be removed |
| Scheduler.Scheduler.Load | src/BoincScheduler.c:411-515 | the error, parameters, disk and queue are those of the load function, and the slots hold the records it recovers |
| Scheduler.Scheduler.HandleLoad | src/BoincScheduler.c:729-747 | a load that succeeds or fails Fatal is returned as it is; any other failure is retried after 15 seconds, four tries in all |
| Scheduler.Scheduler.HasEvents | src/BoincScheduler.c:702-705 | there are events exactly when the head of the queue is due |
| Scheduler.Scheduler.ChangeWorkUnitStatus | src/BoincScheduler.c:517-522 | the status's event for the record's slot is queued at once and no error is returned |
| Scheduler.Scheduler.GetWorkUnit | src/BoincScheduler.c:917-922 | the record of a slot, or null for an index that designates none |
| Scheduler.Scheduler.GetWorkUnitStatus | src/BoincScheduler.c:929-941 | a zeroed snapshot for an index that designates no slot; otherwise the record's status, progress, delay and error kind and code |
| Scheduler.Scheduler.EarlyRow | src/BoincScheduler.c:749-802 | the Created, Waiting, Initializing and Downloading rows do what the event table says and keep the slots |
| Scheduler.Scheduler.LateRow | src/BoincScheduler.c:840-904 | the rows from Computing on do what the event table says; an event type without a row is dropped |
| Scheduler.Scheduler.HandleEvents | src/BoincScheduler.c:707-909 | the due head of the queue is taken off; the recovery event loads, retrying non-fatal failures after 15 seconds four times, and a work-unit event runs its status's row on its occupied slot |

## Left out

- Allocation failures: `malloc`, `calloc` and `strdup` always succeed, except that `BoincErrors.Create` models the static out-of-memory record it falls back to; `boincErrorCreateWithDelay` writing its delay into that static record is not modelled.
- The destroy functions (`boincWorkUnitDestroy`, `boincFileInfoDestroy`, `boincSchedulerDestroy`, `boincConfigurationDestroy`, `boincProxyDestroy`) only free memory; apart from `boincErrorDestroy` and `boincQueueDestroy` they are not modelled.
- Time is an unbounded `nat`; the 32-bit `time_t` of the queue and the wrap-around of the unsigned `nbtries` counter are not modelled.
- Floating point: progress values are kept as `real` and copied, never computed; `cpu_time` of the Finished row (src/BoincScheduler.c:843) and `boincSchedulerSetWorkUnitProgress` / `boincProxyChangeWorkUnitProgress` are not modelled.
- Configuration.Configuration.GetNumber: reads the integer prefix of the stored text, where the code reads a `double` with `atof`; SetNumber writes integral values only, as the `%49.49f` text of an integer.
- Mutexes and the compute thread: the model is single-threaded, so `boincQueueHasEventLocked` and every lock and unlock are left out.
- The compute callback and the status-changed callbacks (`boincSchedulerCompute`, `boincSchedulerSetStatusChangedCallback`, `boincProxySetStatusChangedCallback`) call into the host program; the Computing row therefore changes nothing in the model.
- Logging (`boincLog*`, `boincLogSchedulerStates`, the default log function and its level filter) is output only and changes no state the model follows.
- HTTP: `boincProxyPost`, `Get`, `PostCallback` and `boincHttpInit` are outcomes in `Env` (the HTTP start and the fetch of the project description are one outcome); the request documents of `boincProxyRequestWork`, `boinProxyWorkUnitExecuted` and `boincProxyUploadFile` are not modelled, only their outcomes.
- `boincProxyChangeAuthentication` and `boincSchedulerChangeAuthentication` are not modelled: a network call, the reply parse that `Proxy.Authenticate` models, and the setting and storing of three parameters.
- `boincProxyUploadFile` and its reply callbacks are an outcome of `Transfers.Network` per file.
- MD5 (`md5.c` is not part of this model), `boincHashMd5String`, `boincHashMd5File` and `boincPasswordHash`: a digest is any 16 bytes, supplied by the network model's `md5`.
- The configuration file and its temporary copy are not part of `Disk`: `Configuration.Configuration.Store` yields the document it would write and the outcomes of its `fopen` and `rename` are passed in; the saved server replies (`project.xml`, `auth.xml`, the work reply) are given by what they parse to.
- The expat tokenizer: a document is given as the sequence of element, text and end events it yields (`XmlParser.Source`).
- `fscanf("%s")` is modelled as the first run of non-space characters; `chmod` modes are recorded as the executable decision only.
- File-system calls that the model does not follow step by step (`fopen`, `mkdir`, `stat`, `rename`, `unlink`) fail or succeed according to flags passed in.
- `boincSchedulerGetConfiguration`, `boincSchedulerCountWorkUnits`, `boincSchedulerGetWorkUnitIndex` and `boincQueueNow` return a field, a constant or the clock; they are not modelled.
- `boincConfigurationCreateDefault` and the host defaults of `BoincConfigurationOSCallbacks.c` are the `Configuration.Host` parameter.
- Scheduler.Scheduler.Load: the records it installs are stated by their contents, not as fresh objects, in the loop's history.
- Scheduling.LoadFrom: the slot loop's history is stated for the fixed two slots of the scheduler.
- Hash.FromHex: the reading of hex text, used only to state the round trip, ignores a trailing unpaired digit, and `Hash.DigitValue` maps non-digits to 0.
- Scheduler.Scheduler.HandleEvents: states the queue and error of each row and what the row does through its handler's contract; the records, disk and configuration after each row are stated by the handlers (`Promote`, `HandleDownloading`, `HandleUploading`, `HandleFinal` and the rest).
- The design's claim that no two slots are ever Computing together is not proved as an invariant: the promotion guard is proved per event (`Scheduler.Scheduler.Promote`), but the code lets `boincSchedulerChangeWorkUnitStatus`, and the recovery of two slots whose markers both hold Computing's label, bypass it.
- After allocating the result name, `WUXMLEnd` tests the work unit's name for NULL instead of the new buffer (src/BoincProxy.c:557); allocation is not modelled, so this check is not either.
- `boincSchedulerHandleEvents` reads the event before testing it for NULL (src/BoincScheduler.c:712-722); the model requires a due event.
- Proxy.FileRefLinks: a file is assumed to be referenced once per work unit; the code links the shared file record itself into the current list through its single `next` field (src/BoincProxy.c:386-388), and leaves that field as it was when the list is empty, so a file referenced twice would drag its old tail along (a file the work unit lists and the result then references brings the files after it in the work unit's list into the result's list) or, referenced twice in one list, point to itself; a list of ids cannot show this.
- Disks.RemoveDirectory: the error message always names the path being removed, where the code names the entry whose `opendir`, `unlink` or `rmdir` was refused; an allocation failure inside the walk (a Fatal System error) is not modelled.
- StatusTable.ReadMarker: a marker that is empty or holds only white space reads as status 0; in the code `fscanf` then returns EOF, not 0, and the status buffer is compared uninitialised (src/BoincScheduler.c:386-401); a word longer than the 20-byte buffer overflows it there.
- XmlParser.StartStep: element paths are unbounded strings; the code appends them with `strcat` into the parser's 512-byte `fullName` without a bound (src/linux-gnu/BoincXMLParser.c:30-34).

## Findings

| source | as written | input that shows it | evidently intended | confidence | as-written member | corrected member |
|---|---|---|---|---|---|---|
| src/BoincProxy.c:93-97 | the length test is `size > resSize`, so a URL exactly as long as the buffer is accepted | base "ab", path "", arguments ["xy"], buffer size 5: "ab?xy" is five characters and leaves no byte for the terminator | a URL is built only when it fits the buffer together with its terminator | high, not executed | Proxy.UrlAsWritten (shown by Proxy.UrlFillsBuffer) | Proxy.BoundedUrl |
| src/BoincScheduler.c:561 | the bounds check is `(index < 0) && (index >= nbworkunits)`, which no index satisfies | index -1 or 2 passes the check and indexes outside the two slots | an index outside 0..1 is rejected with an Internal error | high, not executed | Scheduling.GuardAsWritten (shown by Scheduling.GuardNeverFires) | Scheduling.OutOfRange, used by Scheduler.Scheduler.SetWorkUnitStatus |
