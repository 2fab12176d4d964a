/**
 * The typed parameter table of the client configuration. Each parameter
 * is a string or a number, may be supplied by a host callback, may be
 * static (read-only) and may be kept out of the stored configuration
 * file. Values are kept as text, one optional string per parameter.
 */
module Configuration {
  import opened Wrappers
  import opened BoincErrors
  import Paths
  import XmlParser
  import Numbers
  import Sequences

  // Parameter indices, in enum order.
  const ProjectURL := 0
  const CGIURL := 1
  const HostID := 2
  const UserEmail := 3
  const UserFullname := 4
  const UserPassword := 5
  const UserAuthenticator := 6
  const UserTotalCredit := 7
  const UserTeamName := 8
  const HostTimezone := 9
  const HostDomainName := 10
  const HostIpAddress := 11
  const HostCPID := 12
  const HostNCpu := 13
  const HostCpuVendor := 14
  const HostCpuModel := 15
  const HostCpuFeatures := 16
  const HostCpuFpops := 17
  const HostCpuIops := 18
  const HostCpuMemBW := 19
  const HostCpuCalculated := 20
  const HostMemBytes := 21
  const HostMemCache := 22
  const HostMemSwap := 23
  const HostMemTotal := 24
  const HostDiskTotal := 25
  const HostDiskFree := 26
  const HostOSName := 27
  const HostOSVersion := 28
  const HostAccelerators := 29
  const NetworkUpBandwidth := 30
  const NetworkUpAverage := 31
  const NetworkUpAvgTime := 32
  const NetworkDownBandwidth := 33
  const NetworkDownAverage := 34
  const NetworkDownAvgTime := 35
  const TotalDiskUsage := 36
  const ProjectDiskUsage := 37
  const HttpProxy := 38
  const ProjectDirectory := 39
  const ProjectConfigurationFile := 40
  const ProjectConfigurationTmpFile := 41
  const PlatformName := 42
  const WorkUnitDirectory := 43
  const UserTotalWorkunits := 44
  const Language := 45
  const LastIndex := 46

  // Type bits of a parameter definition.
  const StringType: bv8 := 1
  const NumberType: bv8 := 2
  const StaticType: bv8 := 8
  const DontStoreType: bv8 := 16

  /** Size of the buffers the configuration reads its own values into. */
  const MaxStringBuffSize := 100

  /** Name of the document element of the configuration file. */
  const RootName := "BoincLiteConfiguration"

  // The parameter table, column by column: the XML element name, the
  // type bits and whether a host callback supplies the value. Rows past
  // the last parameter are empty.

  function Name(p: nat): string
  {
    match p
    case ProjectURL => "kBoincProjectURL"
    case CGIURL => "scheduler"
    case HostID => "hostid"
    case UserEmail => "kBoincUserEmail"
    case UserFullname => "kBoincUserFullname"
    case UserPassword => "kBoincUserPassword"
    case UserAuthenticator => "authenticator"
    case UserTotalCredit => "kBoincUserTotalCredit"
    case UserTeamName => "kBoincUserTeamName"
    case HostTimezone => "kBoincHostTimezone"
    case HostDomainName => "kBoincHostDomainName"
    case HostIpAddress => "kBoincHostIpAddress"
    case HostCPID => "kBoincHostCPID"
    case HostNCpu => "kBoincHostNCpu"
    case HostCpuVendor => "kBoincHostCpuVendor"
    case HostCpuModel => "kBoincHostCpuModel"
    case HostCpuFeatures => "kBoincHostCpuFeatures"
    case HostCpuFpops => "kBoincHostCpuFpops"
    case HostCpuIops => "kBoincHostCpuIops"
    case HostCpuMemBW => "kBoincHostCpuMemBW"
    case HostCpuCalculated => "kBoincHostCpuCalculated"
    case HostMemBytes => "kBoincHostMemBytes"
    case HostMemCache => "kBoincHostMemCache"
    case HostMemSwap => "kBoincHostMemSwap"
    case HostMemTotal => "kBoincHostMemTotal"
    case HostDiskTotal => "kBoincHostDiskTotal"
    case HostDiskFree => "kBoincHostDiskFree"
    case HostOSName => "kBoincHostOSName"
    case HostOSVersion => "kBoincHostOSVersion"
    case HostAccelerators => "kBoincHostAccelerators"
    case NetworkUpBandwidth => "kBoincNetworkUpBandwidth"
    case NetworkUpAverage => "kBoincNetworkUpAverage"
    case NetworkUpAvgTime => "kBoincNetworkUpAvgTime"
    case NetworkDownBandwidth => "kBoincNetworkDownBandwidth"
    case NetworkDownAverage => "kBoincNetworkDownAverage"
    case NetworkDownAvgTime => "kBoincNetworkDownAvgTime"
    case TotalDiskUsage => "kBoincTotalDiskUsage"
    case ProjectDiskUsage => "kBoincProjectDiskUsage"
    case HttpProxy => "kBoincHttpProxy"
    case ProjectDirectory => "kBoincProjectDirectory"
    case ProjectConfigurationFile => "kBoincProjectConfigurationFile"
    case ProjectConfigurationTmpFile => "kBoincProjectConfigurationTmpFile"
    case PlatformName => "kBoincPlatformName"
    case WorkUnitDirectory => "kBoincWorkUnitDirectory"
    case UserTotalWorkunits => "kBoincUserTotalWorkunits"
    case Language => "kBoincLanguage"
    case _ => ""
  }

  function Kind(p: nat): bv8
  {
    match p
    case ProjectURL => 1
    case CGIURL => 17
    case HostID => 1
    case UserEmail => 1
    case UserFullname => 1
    case UserPassword => 1
    case UserAuthenticator => 17
    case UserTotalCredit => 2
    case UserTeamName => 1
    case HostTimezone => 2
    case HostDomainName => 1
    case HostIpAddress => 9
    case HostCPID => 1
    case HostNCpu => 10
    case HostCpuVendor => 9
    case HostCpuModel => 9
    case HostCpuFeatures => 9
    case HostCpuFpops => 2
    case HostCpuIops => 2
    case HostCpuMemBW => 2
    case HostCpuCalculated => 2
    case HostMemBytes => 10
    case HostMemCache => 10
    case HostMemSwap => 10
    case HostMemTotal => 10
    case HostDiskTotal => 10
    case HostDiskFree => 2
    case HostOSName => 9
    case HostOSVersion => 1
    case HostAccelerators => 1
    case NetworkUpBandwidth => 2
    case NetworkUpAverage => 2
    case NetworkUpAvgTime => 2
    case NetworkDownBandwidth => 2
    case NetworkDownAverage => 2
    case NetworkDownAvgTime => 2
    case TotalDiskUsage => 2
    case ProjectDiskUsage => 2
    case HttpProxy => 1
    case ProjectDirectory => 25
    case ProjectConfigurationFile => 25
    case ProjectConfigurationTmpFile => 25
    case PlatformName => 9
    case WorkUnitDirectory => 1
    case UserTotalWorkunits => 2
    case Language => 1
    case _ => 0
  }

  /** The parameters whose value a host callback supplies. */
  const CallbackParameters: set<nat> := {HostDomainName, HostIpAddress, HostNCpu, HostCpuVendor, HostCpuModel, HostCpuFeatures, HostCpuFpops, HostCpuIops, HostCpuMemBW, HostMemBytes, HostMemCache, HostMemSwap, HostMemTotal, HostDiskTotal, HostDiskFree, HostOSName, HostOSVersion, NetworkUpBandwidth, NetworkUpAverage, NetworkUpAvgTime, NetworkDownBandwidth, NetworkDownAverage, NetworkDownAvgTime, TotalDiskUsage, ProjectDiskUsage, PlatformName}

  /** Parameter values, indexed like the table. */
  type Values = v: seq<Option<string>> | |v| == LastIndex witness seq(LastIndex, _ => None)

  /** What the host callbacks (operating-system queries) answer, by
   *  parameter. */
  type Host = int -> string

  /** The document element's name is not a parameter name. */
  lemma RootIsNoParameter()
    ensures forall p :: 0 <= p < LastIndex ==> Name(p) != RootName
  {
  }

  /** boincConfigurationGetParameterFromName: the first row named `name`,
   *  or -1. */
  function GetParameterFromName(name: string): (r: int)
    ensures -1 <= r < LastIndex
    ensures r >= 0 ==> Name(r) == name && forall j :: 0 <= j < r ==> Name(j) != name
    ensures r == -1 <==> forall j :: 0 <= j < LastIndex ==> Name(j) != name
  {
    FindName(name, 0)
  }

  function FindName(name: string, from: nat): (r: int)
    requires from <= LastIndex
    ensures r == -1 || from <= r < LastIndex
    ensures r >= 0 ==> Name(r) == name && forall j :: from <= j < r ==> Name(j) != name
    ensures r == -1 <==> forall j :: from <= j < LastIndex ==> Name(j) != name
    decreases LastIndex - from
  {
    if from == LastIndex then -1
    else if Name(from) == name then from
    else FindName(name, from + 1)
  }

  /** Every parameter's name leads back to it. */
  lemma NameResolves(p: nat)
    requires p < LastIndex
    ensures GetParameterFromName(Name(p)) == p
  {
    if p < 8 {
      NameUniqueFrom0To7(p);
    } else if p < 16 {
      NameUniqueFrom8To15(p);
    } else if p < 24 {
      NameUniqueFrom16To23(p);
    } else if p < 32 {
      NameUniqueFrom24To31(p);
    } else if p < 39 {
      NameUniqueFrom32To38(p);
    } else {
      NameUniqueFrom39To45(p);
    }
  }

  // The names are pairwise distinct; the comparisons are split by rows.

  lemma NameUniqueFrom0To7(p: nat)
    requires 0 <= p < 8
    ensures forall q :: 0 <= q < LastIndex && q != p ==> Name(q) != Name(p)
  {
    match p
    case 0 =>
    case 1 =>
    case 2 =>
    case 3 =>
    case 4 =>
    case 5 =>
    case 6 =>
    case 7 =>
  }

  lemma NameUniqueFrom8To15(p: nat)
    requires 8 <= p < 16
    ensures forall q :: 0 <= q < LastIndex && q != p ==> Name(q) != Name(p)
  {
    match p
    case 8 =>
    case 9 =>
    case 10 =>
    case 11 =>
    case 12 =>
    case 13 =>
    case 14 =>
    case 15 =>
  }

  lemma NameUniqueFrom16To23(p: nat)
    requires 16 <= p < 24
    ensures forall q :: 0 <= q < LastIndex && q != p ==> Name(q) != Name(p)
  {
    match p
    case 16 =>
    case 17 =>
    case 18 =>
    case 19 =>
    case 20 =>
    case 21 =>
    case 22 =>
    case 23 =>
  }

  lemma NameUniqueFrom24To31(p: nat)
    requires 24 <= p < 32
    ensures forall q :: 0 <= q < LastIndex && q != p ==> Name(q) != Name(p)
  {
    match p
    case 24 =>
    case 25 =>
    case 26 =>
    case 27 =>
    case 28 =>
    case 29 =>
    case 30 =>
    case 31 =>
  }

  lemma NameUniqueFrom32To38(p: nat)
    requires 32 <= p < 39
    ensures forall q :: 0 <= q < LastIndex && q != p ==> Name(q) != Name(p)
  {
    match p
    case 32 =>
    case 33 =>
    case 34 =>
    case 35 =>
    case 36 =>
    case 37 =>
    case 38 =>
  }

  lemma NameUniqueFrom39To45(p: nat)
    requires 39 <= p < 46
    ensures forall q :: 0 <= q < LastIndex && q != p ==> Name(q) != Name(p)
  {
    match p
    case 39 =>
    case 40 =>
    case 41 =>
    case 42 =>
    case 43 =>
    case 44 =>
    case 45 =>
  }


  // The table predicates. The C versions look up the table for any
  // parameter below LastIndex; parameters are never negative.
  predicate IsString(p: nat) { p < LastIndex && Kind(p) & StringType != 0 }
  predicate IsNumber(p: nat) { p < LastIndex && Kind(p) & NumberType != 0 }
  predicate IsCallback(p: nat) { p < LastIndex && p in CallbackParameters }
  predicate IsStatic(p: nat) { p < LastIndex && (|Name(p)| == 0 || Kind(p) & StaticType != 0) }
  predicate IsStorable(p: nat) { p < LastIndex && |Name(p)| > 0 && Kind(p) & DontStoreType == 0 }
  predicate IsReadOnly(p: nat) { IsStatic(p) || IsCallback(p) }

  /** Every parameter is exactly one of string and number; the project
   *  paths are read-only and never stored; the scheduler URL and the
   *  authenticator are never stored, and the authenticator is a writable
   *  string; the project URL and the workunit total are
   *  user-settable and stored. */
  lemma TableKinds()
    ensures forall p :: 0 <= p < LastIndex ==> IsString(p) != IsNumber(p)
    ensures forall p :: p in {ProjectDirectory, ProjectConfigurationFile, ProjectConfigurationTmpFile} ==> IsReadOnly(p) && !IsStorable(p)
    ensures !IsStorable(CGIURL) && !IsStorable(UserAuthenticator)
    ensures !IsReadOnly(UserAuthenticator) && IsString(UserAuthenticator)
    ensures !IsReadOnly(ProjectURL) && IsStorable(ProjectURL) && IsString(ProjectURL)
    ensures !IsReadOnly(UserTotalWorkunits) && IsNumber(UserTotalWorkunits) && IsStorable(UserTotalWorkunits)
  {
  }

  /** The text boincConfigurationGetString copies into a buffer of `len`
   *  bytes: the callback's output for a callback parameter, else the
   *  stored value, cut to len-1 characters; empty when there is none. */
  function ValueString(values: Values, p: nat, len: int, host: Host): (r: string)
    requires len >= 1
    ensures |r| < len
    ensures IsCallback(p) ==> r == Truncate(host(p), len - 1)
    ensures !IsCallback(p) && p < LastIndex && values[p].Some? ==> r == Truncate(values[p].value, len - 1)
    ensures !IsCallback(p) && (p >= LastIndex || values[p].None?) ==> r == ""
  {
    if IsCallback(p) then Truncate(host(p), len - 1)
    else if p < LastIndex && values[p].Some? then Truncate(values[p].value, len - 1)
    else ""
  }

  /** The text snprintf("%49.49f") stores for an integral value: the
   *  digits, a point and 49 zeros; it is never shorter than the width 49,
   *  so no padding is added. */
  function NumberText(n: int): string
  {
    Numbers.Fixed(n, 49)
  }

  /** boincConfigurationGetNumber on a value table: 0 for a parameter that
   *  is neither a number nor a callback, else the number its text reads. */
  function NumberValue(values: Values, p: nat, host: Host): int
  {
    if !IsNumber(p) && !IsCallback(p) then 0
    else Numbers.LeadingInteger(ValueString(values, p, MaxStringBuffSize, host))
  }

  /** A number a user sets reads back as itself while its text fits the
   *  read buffer. */
  lemma SetNumberThenGet(values: Values, p: nat, n: int, host: Host)
    requires p < LastIndex && IsNumber(p) && !IsReadOnly(p)
    requires |NumberText(n)| < MaxStringBuffSize
    ensures NumberValue(values[p := Some(NumberText(n))], p, host) == n
  {
    Numbers.FixedRoundTrip(n, 49);
  }

  /** The (name, text) pairs boincConfigurationStore writes for rows
   *  `from` onwards: storable parameters that have a value, in table
   *  order, each with the text GetString gives for it. */
  function Entries(values: Values, host: Host, from: nat): (r: seq<(string, string)>)
    requires from <= LastIndex
    decreases LastIndex - from
  {
    if from == LastIndex then []
    else if IsStorable(from) && values[from].Some? then
      [(Name(from), ValueString(values, from, MaxStringBuffSize, host))] + Entries(values, host, from + 1)
    else Entries(values, host, from + 1)
  }

  /** The pair boincConfigurationStore writes for row `p`, if any. */
  function EntryAt(values: Values, host: Host, p: nat): (r: seq<(string, string)>)
    requires p < LastIndex
  {
    if IsStorable(p) && values[p].Some? then [(Name(p), ValueString(values, p, MaxStringBuffSize, host))] else []
  }

  /** Row `p`'s pair, if any, for every index. */
  function Row(values: Values, host: Host): nat -> seq<(string, string)>
  {
    (p: nat) => if p < LastIndex then EntryAt(values, host, p) else []
  }

  /** The pairs from row `p` on are row p's pair, if any, then those from p+1 on. */
  lemma EntriesStep(values: Values, host: Host, p: nat)
    requires p < LastIndex
    ensures Entries(values, host, p) == EntryAt(values, host, p) + Entries(values, host, p + 1)
  {
    if !(IsStorable(p) && values[p].Some?) {
      assert EntryAt(values, host, p) + Entries(values, host, p + 1) == Entries(values, host, p + 1);
    }
  }

  /** The stored pairs are the rows' pairs laid end to end. */
  lemma {:induction false} EntriesAreRows(values: Values, host: Host, from: nat)
    requires from <= LastIndex
    ensures Entries(values, host, from) == Sequences.Suffix(Row(values, host), from, LastIndex)
    decreases LastIndex - from
  {
    if from < LastIndex {
      EntriesAreRows(values, host, from + 1);
      EntriesStep(values, host, from);
      assert Row(values, host)(from) == EntryAt(values, host, from);
    }
  }

  /** Every stored entry names a storable parameter with a value, and its
   *  text is short enough to be read back whole by the parser. */
  lemma {:induction false} EntriesAreStorable(values: Values, host: Host, from: nat)
    requires from <= LastIndex
    ensures forall e :: e in Entries(values, host, from) ==>
      |e.1| < MaxStringBuffSize && exists p :: from <= p < LastIndex && IsStorable(p) && values[p].Some? && e.0 == Name(p)
    decreases LastIndex - from
  {
    if from < LastIndex {
      EntriesAreStorable(values, host, from + 1);
    }
  }

  /** The document boincConfigurationStore writes. */
  function Document(entries: seq<(string, string)>): string
  {
    "<?xml version=\"1.0\" encoding=\"UTF-8\"?>\n<" + RootName + ">\n" + Elements(entries) + "</" + RootName + ">\n"
  }

  function Elements(entries: seq<(string, string)>): string
  {
    if |entries| == 0 then ""
    else "<" + entries[0].0 + ">" + entries[0].1 + "</" + entries[0].0 + ">\n" + Elements(entries[1..])
  }

  /** The events the stored document delivers to the parser, text without
   *  markup characters being delivered as written. */
  function DocumentEvents(entries: seq<(string, string)>): seq<XmlParser.Event>
  {
    [XmlParser.StartElement(RootName, []), XmlParser.Text("\n")] + ElementEvents(entries) + [XmlParser.EndElement]
  }

  function ElementEvents(entries: seq<(string, string)>): seq<XmlParser.Event>
  {
    if |entries| == 0 then []
    else
      [XmlParser.StartElement(entries[0].0, []), XmlParser.Text(entries[0].1), XmlParser.EndElement, XmlParser.Text("\n")]
      + ElementEvents(entries[1..])
  }

  /** boincConfigurationXMLBegin: the element's parameter index. */
  function XmlBegin(name: string, attrs: XmlParser.Attributes, values: Values): (int, Values)
  {
    (GetParameterFromName(name), values)
  }

  /** boincConfigurationXMLEnd: an internal set, with no read-only or type
   *  check. */
  function XmlEnd(index: int, text: string, values: Values): (Option<Error>, Values)
  {
    if 0 <= index < LastIndex then (None, values[index := Some(text)]) else (None, values)
  }

  /** The parser run over `events` with the configuration callbacks. */
  function Parsed(values: Values, events: seq<XmlParser.Event>): XmlParser.State<Values>
  {
    XmlParser.Run(events, XmlParser.Initial(values), XmlBegin, XmlEnd)
  }

  /** The values after applying each entry the way the parser does: by
   *  name, in order, and only when the element has text. */
  function Applied(values: Values, entries: seq<(string, string)>): Values
    decreases |entries|
  {
    if |entries| == 0 then values
    else
      var next := if |entries[0].1| > 0 then XmlEnd(GetParameterFromName(entries[0].0), entries[0].1, values).1 else values;
      Applied(next, entries[1..])
  }

  /** Where the parser stands between two elements of a stored document. */
  ghost predicate BetweenElements(s: XmlParser.State<Values>)
  {
    s.level == 0 && s.index < 0 && s.data == "" && s.error.None?
  }

  /** Reading the elements of a stored document applies them. */
  lemma {:induction false} ElementsLoad(entries: seq<(string, string)>, s: XmlParser.State<Values>)
    requires BetweenElements(s)
    requires forall k :: 0 <= k < |entries| ==> |entries[k].1| < XmlParser.BufferSize - 1
    ensures var r := XmlParser.Run(ElementEvents(entries), s, XmlBegin, XmlEnd);
      BetweenElements(r) && r.user == Applied(s.user, entries)
    decreases |entries|
  {
    if |entries| > 0 {
      var e := entries[0];
      var evs := ElementEvents(entries);
      var s1 := XmlParser.StartStep(s, e.0, [], XmlBegin);
      var s2 := XmlParser.DataStep(s1, e.1);
      var s3 := XmlParser.EndStep(s2, XmlEnd);
      var s4 := XmlParser.DataStep(s3, "\n");
      assert s1.index >= 0 && |e.1| > 0 ==> s2.data == e.1;
      assert BetweenElements(s4);
      assert s4.user == (if |e.1| > 0 then XmlEnd(GetParameterFromName(e.0), e.1, s.user).1 else s.user);
      var one := evs[..4];
      assert evs == one + ElementEvents(entries[1..]);
      XmlParser.RunAppend(one, ElementEvents(entries[1..]), s, XmlBegin, XmlEnd);
      assert XmlParser.Run(one[3..], s3, XmlBegin, XmlEnd) == s4;
      assert XmlParser.Run(one[2..], s2, XmlBegin, XmlEnd) == s4 by { assert one[2..][1..] == one[3..]; }
      assert XmlParser.Run(one[1..], s1, XmlBegin, XmlEnd) == s4 by { assert one[1..][1..] == one[2..]; }
      assert XmlParser.Run(one, s, XmlBegin, XmlEnd) == s4;
      ElementsLoad(entries[1..], s4);
    }
  }

  /** Loading a stored document applies its entries. */
  lemma DocumentLoads(entries: seq<(string, string)>, values: Values)
    requires forall k :: 0 <= k < |entries| ==> |entries[k].1| < XmlParser.BufferSize - 1
    ensures Parsed(values, DocumentEvents(entries)).error.None?
    ensures Parsed(values, DocumentEvents(entries)).user == Applied(values, entries)
  {
    RootIsNoParameter();
    var s0 := XmlParser.Initial(values);
    var head := [XmlParser.StartElement(RootName, []), XmlParser.Text("\n")];
    var s2 := XmlParser.DataStep(XmlParser.StartStep(s0, RootName, [], XmlBegin), "\n");
    assert XmlParser.Run(head[1..], XmlParser.StartStep(s0, RootName, [], XmlBegin), XmlBegin, XmlEnd) == s2;
    assert XmlParser.Run(head, s0, XmlBegin, XmlEnd) == s2;
    assert BetweenElements(s2);
    ElementsLoad(entries, s2);
    var body := ElementEvents(entries);
    var tail: seq<XmlParser.Event> := [XmlParser.EndElement];
    assert DocumentEvents(entries) == head + (body + tail);
    XmlParser.RunAppend(head, body + tail, s0, XmlBegin, XmlEnd);
    XmlParser.RunAppend(body, tail, s2, XmlBegin, XmlEnd);
  }

  /** The text row `p`'s entry sets parameter p to, if it sets it: only
   *  a stored parameter with a value, and only when that text is not empty. */
  function RowText(values: Values, host: Host, p: nat): Option<string>
    requires p < LastIndex
  {
    var text := ValueString(values, p, MaxStringBuffSize, host);
    if IsStorable(p) && values[p].Some? && |text| > 0 then Some(text) else None
  }

  /** The values after row `from`'s entry, if it has one, is applied. */
  function AppliedRow(target: Values, values: Values, host: Host, from: nat): Values
    requires from < LastIndex
  {
    var text := RowText(values, host, from);
    if text.Some? then target[from := text] else target
  }

  /** Applying the entries from row `from` on is applying row from's
   *  entry, then those from the next row on. */
  lemma AppliedStep(target: Values, values: Values, host: Host, from: nat)
    requires from < LastIndex
    ensures Applied(target, Entries(values, host, from)) == Applied(AppliedRow(target, values, host, from), Entries(values, host, from + 1))
  {
    var es := Entries(values, host, from);
    if IsStorable(from) && values[from].Some? {
      NameResolves(from);
      assert es[1..] == Entries(values, host, from + 1);
    }
  }

  /** Each row's text, for every index. */
  function RowTexts(values: Values, host: Host): nat -> Option<string>
  {
    (p: nat) => if p < LastIndex then RowText(values, host, p) else None
  }

  /** Rows `from` onwards applied by index, in order, each setting its
   *  own parameter to its text when it has one. */
  function ByRows(target: Values, texts: nat -> Option<string>, from: nat): Values
    decreases LastIndex - from
  {
    if from >= LastIndex then target
    else ByRows(if texts(from).Some? then target[from := texts(from)] else target, texts, from + 1)
  }

  /** Rows `from` onwards leave the parameters below `from` as they were. */
  lemma {:induction false} ByRowsBelow(target: Values, texts: nat -> Option<string>, from: nat, p: nat)
    requires p < from && p < LastIndex
    ensures ByRows(target, texts, from)[p] == target[p]
    decreases LastIndex - from
  {
    if from < LastIndex {
      var next := if texts(from).Some? then target[from := texts(from)] else target;
      assert next[p] == target[p];
      ByRowsBelow(next, texts, from + 1, p);
    }
  }

  /** Rows `from` onwards leave parameter `p` (from <= p) with its own
   *  row's text if that row has one, and as it was otherwise. */
  lemma {:induction false} ByRowsAt(target: Values, texts: nat -> Option<string>, from: nat, p: nat)
    requires from <= p < LastIndex
    ensures ByRows(target, texts, from)[p] == if texts(p).Some? then texts(p) else target[p]
    decreases LastIndex - from
  {
    var next := if texts(from).Some? then target[from := texts(from)] else target;
    if from < p {
      assert next[p] == target[p];
      ByRowsAt(next, texts, from + 1, p);
    } else {
      assert next[p] == if texts(p).Some? then texts(p) else target[p];
      if from + 1 < LastIndex {
        ByRowsBelow(next, texts, from + 1, p);
      }
    }
  }

  /** Applying the stored entries by name is applying the rows by index:
   *  every name resolves back to its own row. */
  lemma {:induction false} AppliedByRows(target: Values, values: Values, host: Host, from: nat)
    requires from <= LastIndex
    ensures Applied(target, Entries(values, host, from)) == ByRows(target, RowTexts(values, host), from)
    decreases LastIndex - from
  {
    if from < LastIndex {
      AppliedStep(target, values, host, from);
      assert RowTexts(values, host)(from) == RowText(values, host, from);
      AppliedByRows(AppliedRow(target, values, host, from), values, host, from + 1);
    }
  }

  /** Entries of rows `from` onwards set each stored parameter to its
   *  stored text (when it has text) and leave the others as they were. */
  lemma AppliedAt(target: Values, values: Values, host: Host, from: nat, p: nat)
    requires from <= p < LastIndex
    ensures Applied(target, Entries(values, host, from))[p] ==
      if RowText(values, host, p).Some? then RowText(values, host, p) else target[p]
  {
    AppliedByRows(target, values, host, from);
    ByRowsAt(target, RowTexts(values, host), from, p);
    assert RowTexts(values, host)(p) == RowText(values, host, p);
  }

  /**
   * Store then Load: reading back the document boincConfigurationStore
   * writes, into any configuration, gives each stored parameter the text
   * it was stored with and leaves every other parameter alone. A stored
   * value that is not a callback's and is shorter than the read buffer
   * comes back unchanged.
   */
  lemma StoreThenLoad(values: Values, host: Host, target: Values, p: nat)
    requires p < LastIndex
    ensures var r := Parsed(target, DocumentEvents(Entries(values, host, 0)));
      var text := ValueString(values, p, MaxStringBuffSize, host);
      r.error.None? &&
      r.user[p] == (if IsStorable(p) && values[p].Some? && |text| > 0 then Some(text) else target[p])
    ensures IsStorable(p) && !IsCallback(p) && values[p].Some? && 0 < |values[p].value| < MaxStringBuffSize ==>
      Parsed(target, DocumentEvents(Entries(values, host, 0))).user[p] == values[p]
  {
    var es := Entries(values, host, 0);
    EntriesAreStorable(values, host, 0);
    assert forall k :: 0 <= k < |es| ==> es[k] in es;
    DocumentLoads(es, target);
    AppliedAt(target, values, host, 0, p);
  }

  /** The error boincConfigurationStore returns: the temporary file that
   *  cannot be opened (code -1), else the rename's outcome. */
  function StoreError(values: Values, host: Host, openOk: bool, renamed: Option<Error>): (r: Option<Error>)
    ensures openOk ==> r == renamed
    ensures !openOk ==> r.Some? && r.value.kind == ErrorType && r.value.code == -1
  {
    if openOk then renamed
    else Some(Createf(ErrorType, -1, "Cannot open " + ValueString(values, ProjectConfigurationTmpFile, MaxStringBuffSize - 1, host) + " in write mode"))
  }

  /** boincConfigurationUpdateFromFile on values: `file` is parsed with
   *  the configuration callbacks (events delivered before a failure still
   *  apply); a parse error is the result, otherwise the configuration is
   *  stored and the store's error is. */
  function UpdateOutcome(values: Values, file: string, source: XmlParser.Source, host: Host,
                         openOk: bool, renamed: Option<Error>): (r: (Option<Error>, Values))
    ensures source.Unopenable? || source.NoParser? ==> r.0.Some? && r.1 == values
    ensures r.0.None? ==> openOk && renamed.None?
  {
    var (perr, after) := XmlParser.Parse(file, source, values, XmlBegin, XmlEnd);
    if perr.Some? then (perr, after) else (StoreError(after, host, openOk, renamed), after)
  }

  /** A file laid out like a stored configuration sets each parameter it
   *  names to its text, and the update then fails only as the store does. */
  lemma UpdateFromDocument(values: Values, file: string, entries: seq<(string, string)>, host: Host,
                           openOk: bool, renamed: Option<Error>)
    requires forall k :: 0 <= k < |entries| ==> |entries[k].1| < XmlParser.BufferSize - 1
    ensures UpdateOutcome(values, file, XmlParser.Whole(DocumentEvents(entries)), host, openOk, renamed)
         == (StoreError(Applied(values, entries), host, openOk, renamed), Applied(values, entries))
  {
    DocumentLoads(entries, values);
  }

  /** The configuration callbacks only ever give parameters a value: one
   *  that has a value keeps one. */
  lemma {:induction false} RunKeepsSet(events: seq<XmlParser.Event>, s: XmlParser.State<Values>, p: nat)
    requires |s.data| < XmlParser.BufferSize && p < LastIndex && s.user[p].Some?
    ensures XmlParser.Run(events, s, XmlBegin, XmlEnd).user[p].Some?
    decreases |events|
  {
    if |events| > 0 {
      RunKeepsSet(events[1..], XmlParser.Step(s, events[0], XmlBegin, XmlEnd), p);
    }
  }

  /** An update never takes a parameter's value away, whatever the file
   *  holds and however it ends. */
  lemma UpdateKeepsSet(values: Values, file: string, source: XmlParser.Source, host: Host,
                       openOk: bool, renamed: Option<Error>, p: nat)
    requires p < LastIndex && values[p].Some?
    ensures UpdateOutcome(values, file, source, host, openOk, renamed).1[p].Some?
  {
    match source
    case ReadFails(before) => RunKeepsSet(before, XmlParser.Initial(values), p);
    case Malformed(before) => RunKeepsSet(before, XmlParser.Initial(values), p);
    case Whole(events) => RunKeepsSet(events, XmlParser.Initial(values), p);
    case _ =>
  }

  /** What boincConfigurationLoad finds: the parse outcome of the
   *  configuration file. */
  type LoadSource = XmlParser.Source

  class Configuration {
    const parameter: array<Option<string>>

    ghost predicate Valid()
      reads this
    {
      parameter.Length == LastIndex
    }

    function Values(): Values
      reads this, parameter
      requires Valid()
    {
      parameter[..]
    }

    /** boincConfigurationCreate: the project directory and the two
     *  configuration file paths derived from it are set, nothing else. */
    constructor (dir: string)
      ensures Valid() && fresh(parameter)
      ensures Values() == CreatedValues(dir)
    {
      parameter := new Option<string>[LastIndex](_ => None);
      new;
      var len := |dir| + |"config.xml"| + 6;
      var filename := Paths.AppendFilename(dir, len, "config.xml").value;
      parameter[ProjectDirectory] := Some(dir);
      parameter[ProjectConfigurationFile] := Some(filename);
      parameter[ProjectConfigurationTmpFile] := Some(filename + ".tmp");
    }

    /** boincConfigurationHasParameter. */
    predicate HasParameter(p: nat)
      reads this, parameter
      requires Valid()
    {
      p < LastIndex && parameter[p].Some?
    }

    /** boincConfigurationGetString into a buffer of `len` bytes. */
    function GetString(p: nat, len: int, host: Host): (r: string)
      reads this, parameter
      requires Valid() && len >= 1
      ensures r == ValueString(Values(), p, len, host)
    {
      ValueString(parameter[..], p, len, host)
    }

    /** boincConfigurationGetNumber. */
    function GetNumber(p: nat, host: Host): (r: int)
      reads this, parameter
      requires Valid()
      ensures r == NumberValue(Values(), p, host)
    {
      NumberValue(parameter[..], p, host)
    }

    /** boincConfigurationSetInternalString: allocation is not modelled,
     *  so it always succeeds. */
    method SetInternalString(p: nat, value: string)
      requires Valid() && p < LastIndex
      modifies parameter
      ensures Values() == old(Values())[p := Some(value)]
    {
      parameter[p] := Some(value);
    }

    /** boincConfigurationSetString: read-only parameters fail with code
     *  -1, numbers with -2, and neither changes anything. */
    method SetString(p: nat, value: string) returns (err: Option<Error>)
      requires Valid() && p < LastIndex
      modifies parameter
      ensures IsReadOnly(p) ==> err.Some? && err.value.code == -1 && Values() == old(Values())
      ensures !IsReadOnly(p) && !IsString(p) ==> err.Some? && err.value.code == -2 && Values() == old(Values())
      ensures !IsReadOnly(p) && IsString(p) ==> err.None? && Values() == old(Values())[p := Some(value)]
    {
      var name := Name(p);
      if IsReadOnly(p) {
        return Some(Createf(ErrorType, -1, "boincConfigurationSetString(" + name + ") with parameter " + value + " cannot be modified"));
      }
      if Kind(p) & StringType == 0 {
        return Some(Createf(ErrorType, -2, "boincConfigurationSetString(" + name + ") with parameter " + value + " is not a string"));
      }
      SetInternalString(p, value);
      return None;
    }

    /** boincConfigurationSetNumber: non-numbers fail with code -1,
     *  read-only numbers with -2, the messages showing the value as "%f"
     *  does; the value is stored as its "%49.49f" text. */
    method SetNumber(p: nat, value: int) returns (err: Option<Error>)
      requires Valid() && p < LastIndex
      modifies parameter
      ensures !IsNumber(p) ==> err.Some? && err.value.code == -1 && Values() == old(Values())
      ensures IsNumber(p) && IsReadOnly(p) ==> err.Some? && err.value.code == -2 && Values() == old(Values())
      ensures IsNumber(p) && !IsReadOnly(p) ==> err.None? && Values() == old(Values())[p := Some(Truncate(NumberText(value), MaxStringBuffSize - 1))]
    {
      var name := Name(p);
      if !IsNumber(p) {
        return Some(Createf(ErrorType, -1, "boincConfigurationSetNumber(" + name + ") with parameter " + Numbers.Fixed(value, 6) + " is not a number"));
      }
      if IsReadOnly(p) {
        return Some(Createf(ErrorType, -2, "boincConfigurationSetNumber(" + name + ") with parameter " + Numbers.Fixed(value, 6) + " cannot be modified"));
      }
      SetInternalString(p, Truncate(NumberText(value), MaxStringBuffSize - 1));
      return None;
    }

    /** The loop of boincConfigurationStore that writes the elements. */
    method StoreEntries(host: Host) returns (entries: seq<(string, string)>)
      requires Valid()
      ensures entries == Entries(Values(), host, 0)
    {
      ghost var values := Values();
      ghost var row := Row(values, host);
      entries := [];
      var i := 0;
      while i < LastIndex
        invariant 0 <= i <= LastIndex
        invariant entries == Sequences.Prefix(row, i)
      {
        assert row(i) == EntryAt(values, host, i);
        if IsStorable(i) && HasParameter(i) {
          var text := GetString(i, MaxStringBuffSize, host);
          entries := entries + [(Name(i), text)];
        } else {
          assert entries + row(i) == entries;
        }
        i := i + 1;
      }
      Sequences.PrefixWhole(row, LastIndex);
      EntriesAreRows(values, host, 0);
    }

    /** boincConfigurationStore: the document is written to the temporary
     *  file (whose path is read into a 99-byte buffer), then renamed over
     *  the configuration file; `openOk` and `renamed` are the outcomes of
     *  opening the temporary file and of the rename. */
    method Store(host: Host, openOk: bool, renamed: Option<Error>) returns (err: Option<Error>, document: Option<string>)
      requires Valid()
      ensures !openOk ==> document.None?
      ensures !openOk ==> err == Some(Createf(ErrorType, -1, "Cannot open " + ValueString(Values(), ProjectConfigurationTmpFile, MaxStringBuffSize - 1, host) + " in write mode"))
      ensures openOk ==> document == Some(Document(Entries(Values(), host, 0))) && err == renamed
    {
      var tmp := GetString(ProjectConfigurationTmpFile, MaxStringBuffSize - 1, host);
      if !openOk {
        return Some(Createf(ErrorType, -1, "Cannot open " + tmp + " in write mode")), None;
      }
      var entries := StoreEntries(host);
      document := Some(Document(entries));
      err := renamed;
    }

    /** boincConfigurationLoad: the file is parsed with the configuration
     *  callbacks (events delivered before a failure still apply); a major
     *  error is returned, a minor one (no file) installs the defaults, and
     *  a good parse is followed by Store. `stored` and `osDefaults` are the
     *  outcomes of that Store and of the host defaults. */
    method Load(source: LoadSource, host: Host, stored: Option<Error>, osDefaults: Option<Error>) returns (err: Option<Error>)
      requires Valid()
      modifies parameter
      ensures var file := ValueString(old(Values()), ProjectConfigurationFile, MaxStringBuffSize, host);
        var (perr, after) := XmlParser.Parse(file, source, old(Values()), XmlBegin, XmlEnd);
        if perr.None? then err == stored && Values() == after
        else if IsMajor(perr.value) then err == perr && Values() == after
        else err == osDefaults && Values() == after[HostID := Some("0")]
    {
      var file := GetString(ProjectConfigurationFile, MaxStringBuffSize, host);
      var (perr, after) := XmlParser.Parse(file, source, Values(), XmlBegin, XmlEnd);
      SetAll(after);
      if perr.None? {
        err := stored;
      } else if IsMajor(perr.value) {
        err := perr;
      } else {
        SetInternalString(HostID, "0");
        err := osDefaults;
      }
    }

    /** boincConfigurationUpdateFromFile: `source` is what `file` parses
     *  to; `openOk` and `renamed` are the outcomes of the Store that
     *  follows a good parse. */
    method UpdateFromFile(file: string, source: XmlParser.Source, host: Host, openOk: bool, renamed: Option<Error>)
      returns (err: Option<Error>)
      requires Valid()
      modifies parameter
      ensures (err, Values()) == UpdateOutcome(old(Values()), file, source, host, openOk, renamed)
    {
      var (perr, after) := XmlParser.Parse(file, source, Values(), XmlBegin, XmlEnd);
      SetAll(after);
      if perr.Some? {
        return perr;
      }
      var document;
      err, document := Store(host, openOk, renamed);
    }

    method SetAll(values: Values)
      requires Valid()
      modifies parameter
      ensures Values() == values
    {
      forall i | 0 <= i < LastIndex {
        parameter[i] := values[i];
      }
    }
  }

  /** The values boincConfigurationCreate sets. */
  function CreatedValues(dir: string): (r: Values)
    ensures r[ProjectDirectory] == Some(dir)
    ensures r[ProjectConfigurationFile] == Some(Paths.Joined(dir, "config.xml"))
    ensures r[ProjectConfigurationTmpFile] == Some(Paths.Joined(dir, "config.xml") + ".tmp")
    ensures forall p :: 0 <= p < LastIndex && p !in {ProjectDirectory, ProjectConfigurationFile, ProjectConfigurationTmpFile} ==> r[p].None?
  {
    var filename := Paths.AppendFilename(dir, |dir| + |"config.xml"| + 6, "config.xml").value;
    seq(LastIndex, _ => None)[ProjectDirectory := Some(dir)][ProjectConfigurationFile := Some(filename)][ProjectConfigurationTmpFile := Some(filename + ".tmp")]
  }

  /** Parsing a configuration file never fails through a callback: the
   *  only errors are those of the file and the XML. */
  lemma {:induction false} CallbacksNeverFail(events: seq<XmlParser.Event>, s: XmlParser.State<Values>)
    requires |s.data| < XmlParser.BufferSize && s.error.None?
    ensures XmlParser.Run(events, s, XmlBegin, XmlEnd).error.None?
    decreases |events|
  {
    if |events| > 0 {
      CallbacksNeverFail(events[1..], XmlParser.Step(s, events[0], XmlBegin, XmlEnd));
    }
  }
}
