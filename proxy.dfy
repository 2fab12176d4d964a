/**
 * The proxy's pure parts: the URL builder, the parser callbacks for the
 * authentication reply and for the work description the server sends,
 * the empty-work-unit rule of LoadWorkUnit, and what DownloadFile decides
 * before it transfers a file. The HTTP transfers themselves are outside
 * the model and appear as outcomes passed in.
 */
module Proxy {
  import opened Wrappers
  import opened BoincErrors
  import opened WorkUnits
  import Paths
  import XmlParser
  import Numbers
  import Configuration

  /** Size of the proxy's path and URL buffers. */
  const BuffSize := 255

  const AccountPath := "lookup_account.php"

  // ---------------------------------------------------------------
  // boincProxyConstructUrl

  /** A URL request: base, path and the query arguments as alternating
   *  names and values; base or path may be NULL. */
  datatype Url = Url(base: Option<string>, path: Option<string>, args: seq<string>)

  /** The character written before argument i. */
  function ArgSeparator(i: nat): char
  {
    if i % 2 == 1 then '=' else if i > 0 then '&' else '?'
  }

  /** The characters the arguments add: each one and its separator. */
  function QueryLength(args: seq<string>): nat
    decreases |args|
  {
    if |args| == 0 then 0 else QueryLength(args[..|args| - 1]) + |args[|args| - 1]| + 1
  }

  /** The query string: every argument verbatim after its separator (no
   *  percent-encoding). */
  function Query(args: seq<string>): (q: string)
    decreases |args|
  {
    if |args| == 0 then "" else Query(args[..|args| - 1]) + [ArgSeparator(|args| - 1)] + args[|args| - 1]
  }

  /** QueryLength counts exactly the characters of the query. */
  lemma {:induction false} QueryLengthExact(args: seq<string>)
    ensures |Query(args)| == QueryLength(args)
    decreases |args|
  {
    if |args| > 0 {
      QueryLengthExact(args[..|args| - 1]);
    }
  }

  /** One more argument adds its separator and itself. */
  lemma QueryLast(args: seq<string>, a: string)
    ensures Query(args + [a]) == Query(args) + [ArgSeparator(|args|)] + a
  {
    assert (args + [a])[..|args|] == args;
  }

  /** After complete pairs a name takes '?' or '&' and its value '='. */
  lemma PairSeparators(n: nat)
    requires n % 2 == 0
    ensures ArgSeparator(n) == (if n == 0 then '?' else '&') && ArgSeparator(n + 1) == '='
  {
  }

  /** Adding a name/value pair after complete pairs adds "?name=value"
   *  first and "&name=value" after. */
  lemma QueryAppendPair(args: seq<string>, name: string, value: string)
    requires |args| % 2 == 0
    ensures Query(args + [name, value]) == Query(args) + [if |args| == 0 then '?' else '&'] + name + "=" + value
  {
    PairSeparators(|args|);
    QueryLast(args, name);
    QueryLast(args + [name], value);
    assert args + [name] + [value] == args + [name, value];
  }

  /** The base with the path appended, as the buffer holds it before the
   *  arguments; None when base or path is NULL or either step fails. */
  function UrlHead(u: Url, size: int): (r: Option<string>)
    ensures r.Some? <==> (u.base.Some? && u.path.Some? && |u.base.value| < size
                          && Paths.AppendFilename(u.base.value, size, u.path.value).Some?)
    ensures r.Some? ==> r == Paths.AppendFilename(u.base.value, size, u.path.value)
  {
    if u.base.None? || u.path.None? then None
    else if Paths.InitFilename(size, u.base.value).None? then None
    else Paths.AppendFilename(u.base.value, size, u.path.value)
  }

  /** What boincProxyConstructUrl returns: the head and the query, unless
   *  their length exceeds `size`. A length of exactly `size` passes. */
  function UrlAsWritten(u: Url, size: int): (r: Option<string>)
    ensures r.Some? <==> UrlHead(u, size).Some? && |UrlHead(u, size).value| + QueryLength(u.args) <= size
    ensures r.Some? ==> r.value == UrlHead(u, size).value + Query(u.args)
  {
    var head := UrlHead(u, size);
    if head.None? || |head.value| + QueryLength(u.args) > size then None
    else Some(head.value + Query(u.args))
  }

  lemma {:induction false} QueryLengthPrefix(args: seq<string>, i: nat)
    requires i <= |args|
    ensures QueryLength(args[..i]) <= QueryLength(args)
    decreases |args| - i
  {
    if i < |args| {
      QueryLengthPrefix(args, i + 1);
      assert args[..i + 1][..i] == args[..i];
    } else {
      assert args[..i] == args;
    }
  }

  /** boincProxyConstructUrl. */
  method ConstructUrl(u: Url, size: int) returns (r: Option<string>)
    ensures r == UrlAsWritten(u, size)
  {
    if u.base.None? || u.path.None? {
      return None;
    }
    if Paths.InitFilename(size, u.base.value).None? {
      return None;
    }
    var head := Paths.AppendFilename(u.base.value, size, u.path.value);
    if head.None? {
      return None;
    }
    var url := head.value;
    var total := |url|;
    var i := 0;
    while i < |u.args|
      invariant 0 <= i <= |u.args|
      invariant url == head.value + Query(u.args[..i])
      invariant total == |url| <= size
    {
      total := total + |u.args[i]| + 1;
      assert u.args[..i + 1][..i] == u.args[..i];
      if total > size {
        QueryLengthExact(u.args[..i + 1]);
        QueryLengthPrefix(u.args, i + 1);
        return None;
      }
      url := url + [ArgSeparator(i)] + u.args[i];
      i := i + 1;
    }
    assert u.args[..i] == u.args;
    QueryLengthExact(u.args);
    return Some(url);
  }

  /** With the `>` test a URL exactly as long as the buffer is accepted,
   *  leaving no byte for the terminator: base "ab", an empty path and the
   *  single argument "xy" give "ab?xy", five characters for a five-byte
   *  buffer. */
  lemma UrlFillsBuffer()
    ensures UrlAsWritten(Url(Some("ab"), Some(""), ["xy"]), 5) == Some("ab?xy")
    ensures |"ab?xy"| == 5
  {
    var u := Url(Some("ab"), Some(""), ["xy"]);
    assert Paths.InitFilename(5, "ab") == Some("ab");
    assert Paths.AppendFilename("ab", 5, "") == Some("ab");
    assert UrlHead(u, 5) == Some("ab");
    assert ["xy"][..0] == [];
    assert Query(["xy"]) == "?xy";
    assert QueryLength(["xy"]) == 3;
    assert "ab" + "?xy" == "ab?xy";
  }

  /** The URL the code evidently means to build: one that fits the
   *  buffer together with its terminator. */
  function BoundedUrl(u: Url, size: int): (r: Option<string>)
    ensures r.Some? ==> |r.value| < size
    ensures r.Some? ==> r == UrlAsWritten(u, size)
    ensures UrlAsWritten(u, size).Some? && |UrlAsWritten(u, size).value| < size ==> r == UrlAsWritten(u, size)
  {
    var head := UrlHead(u, size);
    QueryLengthExact(u.args);
    if head.None? || |head.value| + QueryLength(u.args) >= size then None
    else Some(head.value + Query(u.args))
  }

  // ---------------------------------------------------------------
  // Authentication reply

  const ErrorMessageIndex := 1
  const AuthenticatorIndex := 2

  /** boincProxyAuthXMLBegin. */
  function AuthBegin(name: string, attrs: XmlParser.Attributes, handle: Option<string>): (int, Option<string>)
  {
    if name == "error_msg" then (ErrorMessageIndex, handle)
    else if name == "authenticator" then (AuthenticatorIndex, handle)
    else (-1, handle)
  }

  /** boincProxyAuthXMLEnd: an error message becomes an authentication
   *  error; an authenticator is kept (allocation is not modelled). */
  function AuthEnd(index: int, value: string, handle: Option<string>): (Option<Error>, Option<string>)
  {
    if index == ErrorMessageIndex then (Some(Error(ErrorType, Authentication, Some(value), 0)), handle)
    else if index == AuthenticatorIndex then (None, Some(value))
    else (None, handle)
  }

  const AuthenticationFailed := Error(ErrorType, Authentication, Some("Authentication failed"), 0)

  /** The tail of boincProxyAuthenticate: parse the reply, fail with the
   *  parse error, or with "Authentication failed" when no authenticator
   *  came back. */
  function AuthenticatorFrom(file: string, reply: XmlParser.Source): (r: Result<string, Error>)
  {
    var (err, handle) := XmlParser.Parse(file, reply, None, AuthBegin, AuthEnd);
    if err.Some? then Failure(err.value)
    else if handle.None? then Failure(AuthenticationFailed)
    else Success(handle.value)
  }

  /** The reply <root><tag>text</tag></root>. */
  function OneElementReply(root: string, tag: string, text: string): seq<XmlParser.Event>
  {
    [XmlParser.StartElement(root, []), XmlParser.StartElement(tag, []), XmlParser.Text(text),
     XmlParser.EndElement, XmlParser.EndElement]
  }

  /** Runs the five events of a one-element reply step by step. */
  lemma RunOneElement<U>(root: string, tag: string, text: string, user: U,
                         begin: XmlParser.BeginCallback<U>, end: XmlParser.EndCallback<U>)
    ensures var s0 := XmlParser.Initial(user);
      var s1 := XmlParser.StartStep(s0, root, [], begin);
      var s2 := XmlParser.StartStep(s1, tag, [], begin);
      var s3 := XmlParser.DataStep(s2, text);
      var s4 := XmlParser.EndStep(s3, end);
      XmlParser.Run(OneElementReply(root, tag, text), s0, begin, end) == XmlParser.EndStep(s4, end)
  {
    var evs := OneElementReply(root, tag, text);
    var s0 := XmlParser.Initial(user);
    var s1 := XmlParser.StartStep(s0, root, [], begin);
    var s2 := XmlParser.StartStep(s1, tag, [], begin);
    var s3 := XmlParser.DataStep(s2, text);
    var s4 := XmlParser.EndStep(s3, end);
    var s5 := XmlParser.EndStep(s4, end);
    assert XmlParser.Run(evs[4..], s4, begin, end) == s5;
    assert XmlParser.Run(evs[3..], s3, begin, end) == s5 by { assert evs[3..][1..] == evs[4..]; }
    assert XmlParser.Run(evs[2..], s2, begin, end) == s5 by { assert evs[2..][1..] == evs[3..]; }
    assert XmlParser.Run(evs[1..], s1, begin, end) == s5 by { assert evs[1..][1..] == evs[2..]; }
  }

  /** A reply carrying an error message fails with that message. */
  lemma ErrorMessageRejected(file: string, root: string, msg: string)
    requires root != "error_msg" && root != "authenticator"
    requires 0 < |msg| < XmlParser.BufferSize - 1
    ensures AuthenticatorFrom(file, XmlParser.Whole(OneElementReply(root, "error_msg", msg)))
      == Failure(Error(ErrorType, Authentication, Some(msg), 0))
  {
    RunOneElement(root, "error_msg", msg, None, AuthBegin, AuthEnd);
  }

  /** A reply carrying an authenticator yields it. */
  lemma AuthenticatorAccepted(file: string, root: string, key: string)
    requires root != "error_msg" && root != "authenticator"
    requires 0 < |key| < XmlParser.BufferSize - 1
    ensures AuthenticatorFrom(file, XmlParser.Whole(OneElementReply(root, "authenticator", key))) == Success(key)
  {
    RunOneElement(root, "authenticator", key, None, AuthBegin, AuthEnd);
  }

  /** A reply with neither element fails with "Authentication failed". */
  lemma NoAuthenticatorRejected(file: string, root: string, tag: string, text: string)
    requires root != "error_msg" && root != "authenticator"
    requires tag != "error_msg" && tag != "authenticator"
    ensures AuthenticatorFrom(file, XmlParser.Whole(OneElementReply(root, tag, text))) == Failure(AuthenticationFailed)
  {
    RunOneElement(root, tag, text, None, AuthBegin, AuthEnd);
  }

  /** Where boincProxyInit saves the project description: the project
   *  directory joined with "project.xml". */
  function ProjectFile(values: Configuration.Values, host: Configuration.Host): string
  {
    Paths.Joined(Configuration.ValueString(values, Configuration.ProjectDirectory, BuffSize, host), "project.xml")
  }

  /** boincProxyInit on the configuration: `started` is the outcome of
   *  starting HTTP and fetching the project description, `reply` what the
   *  saved description parses to; the configuration is then updated from
   *  it, and that update's error is the result. */
  function Init(values: Configuration.Values, host: Configuration.Host, started: Option<Error>,
                reply: XmlParser.Source, openOk: bool, renamed: Option<Error>): (r: (Option<Error>, Configuration.Values))
    ensures started.Some? ==> r == (started, values)
    ensures started.None? && (reply.Unopenable? || reply.NoParser?) ==> r.0.Some? && r.1 == values
    ensures r.0.None? ==> started.None? && openOk && renamed.None?
  {
    if started.Some? then (started, values)
    else Configuration.UpdateOutcome(values, ProjectFile(values, host), reply, host, openOk, renamed)
  }

  /** A project description listing parameters sets each of them to its
   *  text; the start then fails only as the store does. */
  lemma InitFromDocument(values: Configuration.Values, host: Configuration.Host, entries: seq<(string, string)>,
                         openOk: bool, renamed: Option<Error>)
    requires forall k :: 0 <= k < |entries| ==> |entries[k].1| < XmlParser.BufferSize - 1
    ensures var after := Configuration.Applied(values, entries);
      Init(values, host, None, XmlParser.Whole(Configuration.DocumentEvents(entries)), openOk, renamed)
        == (Configuration.StoreError(after, host, openOk, renamed), after)
  {
    Configuration.UpdateFromDocument(values, ProjectFile(values, host), entries, host, openOk, renamed);
  }

  /** Starting the proxy never takes a parameter's value away. */
  lemma InitKeepsSet(values: Configuration.Values, host: Configuration.Host, started: Option<Error>,
                     reply: XmlParser.Source, openOk: bool, renamed: Option<Error>, p: nat)
    requires p < Configuration.LastIndex && values[p].Some?
    ensures Init(values, host, started, reply, openOk, renamed).1[p].Some?
  {
    if started.None? {
      Configuration.UpdateKeepsSet(values, ProjectFile(values, host), reply, host, openOk, renamed, p);
    }
  }

  /** boincProxyInit. */
  method Initialize(config: Configuration.Configuration, host: Configuration.Host, started: Option<Error>,
                    reply: XmlParser.Source, openOk: bool, renamed: Option<Error>) returns (err: Option<Error>)
    requires config.Valid()
    modifies config.parameter
    ensures (err, config.Values()) == Init(old(config.Values()), host, started, reply, openOk, renamed)
  {
    if started.Some? {
      return started;
    }
    var dir := config.GetString(Configuration.ProjectDirectory, BuffSize, host);
    err := config.UpdateFromFile(Paths.Joined(dir, "project.xml"), reply, host, openOk, renamed);
  }

  /** boincProxyAuthenticate up to the authenticator: the e-mail and the
   *  password hash must be set and non-empty; `fetched` is the outcome of
   *  the HTTP request and `reply` what the saved reply parses to. */
  function Authenticate(values: Configuration.Values, host: Configuration.Host, fetched: Option<Error>, reply: XmlParser.Source): (r: Result<string, Error>)
    ensures values[Configuration.UserEmail].None? ==> r.Failure? && r.error.code == Authentication
    ensures values[Configuration.UserPassword].None? ==> r.Failure? && r.error.code == Authentication
    ensures fetched.Some? ==> r.Failure?
    ensures r.Success? ==> (fetched.None? && Configuration.ValueString(values, Configuration.UserEmail, BuffSize, host) != ""
                            && Configuration.ValueString(values, Configuration.UserPassword, BuffSize, host) != ""
                            && r == AuthenticatorFrom(Paths.Joined(Configuration.ValueString(values, Configuration.ProjectDirectory, BuffSize, host), "auth.xml"), reply))
  {
    if values[Configuration.UserEmail].None? then
      Failure(Error(ErrorType, Authentication, Some("Can't authenticate: email not set"), 0))
    else if Configuration.ValueString(values, Configuration.UserEmail, BuffSize, host) == "" then
      Failure(Error(ErrorType, Authentication, Some("Can't authenticate: empty email"), 0))
    else if values[Configuration.UserPassword].None? then
      Failure(Error(ErrorType, Authentication, Some("Can't authenticate: password not set"), 0))
    else if Configuration.ValueString(values, Configuration.UserPassword, BuffSize, host) == "" then
      Failure(Error(ErrorType, Authentication, Some("Can't authenticate: empty password hash"), 0))
    else if fetched.Some? then Failure(fetched.value)
    else
      AuthenticatorFrom(Paths.Joined(Configuration.ValueString(values, Configuration.ProjectDirectory, BuffSize, host), "auth.xml"), reply)
  }

  /** boincProxyAuthenticate: on success the authenticator is set (the
   *  parameter is a writable string, so that cannot fail) and the
   *  configuration stored; `openOk` and `renamed` are the outcomes of the
   *  store's file calls. */
  method AuthenticateUser(config: Configuration.Configuration, host: Configuration.Host, fetched: Option<Error>,
                          reply: XmlParser.Source, openOk: bool, renamed: Option<Error>) returns (err: Option<Error>)
    requires config.Valid()
    modifies config.parameter
    ensures match Authenticate(old(config.Values()), host, fetched, reply)
      case Failure(e) => err == Some(e) && config.Values() == old(config.Values())
      case Success(a) =>
        && config.Values() == old(config.Values())[Configuration.UserAuthenticator := Some(a)]
        && err == Configuration.StoreError(config.Values(), host, openOk, renamed)
  {
    var outcome := Authenticate(config.Values(), host, fetched, reply);
    if outcome.Failure? {
      err := Some(outcome.error);
    } else {
      Configuration.TableKinds();
      err := config.SetString(Configuration.UserAuthenticator, outcome.value);
      var document;
      err, document := config.Store(host, openOk, renamed);
    }
  }

  /** The account lookup the authentication requests. */
  function AccountUrl(projectUrl: string, email: string, passwordHash: string): Url
  {
    Url(Some(projectUrl), Some(AccountPath), ["email_addr", email, "passwd_hash", passwordHash])
  }

  /** Its query is "?email_addr=<email>&passwd_hash=<hash>". */
  lemma AccountQuery(email: string, passwordHash: string)
    ensures Query(AccountUrl("", email, passwordHash).args)
         == ['?'] + "email_addr" + ['='] + email + ['&'] + "passwd_hash" + ['='] + passwordHash
  {
    var args := ["email_addr", email, "passwd_hash", passwordHash];
    QueryLast([], "email_addr");
    QueryLast(["email_addr"], email);
    QueryLast(["email_addr", email], "passwd_hash");
    QueryLast(["email_addr", email, "passwd_hash"], passwordHash);
    assert [] + ["email_addr"] == ["email_addr"];
    assert ["email_addr"] + [email] == ["email_addr", email];
    assert ["email_addr", email] + ["passwd_hash"] == ["email_addr", email, "passwd_hash"];
    assert ["email_addr", email, "passwd_hash"] + [passwordHash] == args;
    assert Query([]) + ['?'] + "email_addr" == ['?'] + "email_addr";
  }

  // ---------------------------------------------------------------
  // Work description callbacks

  // Element indices of the work description.
  const WuError := 1
  const WuMessage := 2
  const WuFlops := 3
  const WuMemory := 4
  const WuDisk := 5
  const WuName := 6
  const WuFileInfoName := 7
  const WuFileInfoUrl := 8
  const WuFileSignature := 9
  const WuNBytes := 10
  const WuChecksum := 11
  const WuFileRef := 12
  const WuOpenName := 13
  const WuDeadline := 14
  const WuAppVersion := 15
  const WuApiVersion := 16
  const WuXmlSignature := 17
  const WuMaxNBytes := 18
  const WuDelay := 19
  const WuResultName := 20

  /** The file info created last: the head of the C global list. */
  predicate HasNewest(m: Manifest) { |m.table| > 0 }

  function Newest(m: Manifest): FileInfo
    requires HasNewest(m)
  {
    m.table[|m.table| - 1]
  }

  function WithNewest(m: Manifest, fi: FileInfo): (r: Manifest)
    requires HasNewest(m)
    ensures |r.table| == |m.table| && Newest(r) == fi
    ensures forall k :: 0 <= k < |m.table| - 1 ==> r.table[k] == m.table[k]
    ensures r == m.(table := r.table)
  {
    m.(table := m.table[|m.table| - 1 := fi])
  }

  /** The newest file info named `name`: the first match along the C
   *  global list. A file info without a name matches nothing. */
  function NewestNamed(table: seq<FileInfo>, name: string): (r: Option<nat>)
    ensures r.Some? ==> r.value < |table| && table[r.value].name == Some(name)
    ensures r.Some? ==> forall k :: r.value < k < |table| ==> table[k].name != Some(name)
    ensures r.None? ==> forall k :: 0 <= k < |table| ==> table[k].name != Some(name)
    decreases |table|
  {
    if |table| == 0 then None
    else if table[|table| - 1].name == Some(name) then Some(|table| - 1)
    else NewestNamed(table[..|table| - 1], name)
  }

  /** Whether the list the current file_ref goes to exists. */
  predicate HasCurrentList(m: Manifest)
  {
    match m.current
    case NoList => false
    case AppFiles => m.app.Some?
    case WorkUnitFiles => true
    case ResultFiles => m.result.Some?
  }

  function CurrentList(m: Manifest): seq<nat>
    requires HasCurrentList(m)
  {
    match m.current
    case AppFiles => m.app.value.files
    case WorkUnitFiles => m.files
    case ResultFiles => m.result.value.files
  }

  function WithCurrentList(m: Manifest, ids: seq<nat>): (r: Manifest)
    requires HasCurrentList(m)
    ensures HasCurrentList(r) && CurrentList(r) == ids && r.table == m.table && r.current == m.current
  {
    match m.current
    case AppFiles => m.(app := Some(m.app.value.(files := ids)))
    case WorkUnitFiles => m.(files := ids)
    case ResultFiles => m.(result := Some(m.result.value.(files := ids)))
  }

  /** boincProxyAffectCurrentFileInfoFromName: the newest file info with
   *  that name goes to the front of the current list; an unknown name
   *  changes nothing. */
  function AffectCurrentFileInfoFromName(m: Manifest, name: string): Manifest
  {
    var found := NewestNamed(m.table, name);
    if found.None? || !HasCurrentList(m) then m
    else WithCurrentList(m, [found.value] + CurrentList(m))
  }

  /** The file info at the head of the current list. */
  function CurrentHead(m: Manifest): Option<nat>
  {
    if HasCurrentList(m) && |CurrentList(m)| > 0 && CurrentList(m)[0] < |m.table| then Some(CurrentList(m)[0]) else None
  }

  /** Sets a flag bit on the newest file info. */
  function FlagNewest(m: Manifest, bit: bv32): (r: Manifest)
    ensures r == m.(table := r.table) && |r.table| == |m.table|
    ensures HasNewest(m) ==> r == WithNewest(m, Newest(m).(flags := Newest(m).flags | bit))
  {
    if HasNewest(m) then WithNewest(m, Newest(m).(flags := Newest(m).flags | bit)) else m
  }

  /** The field an element's text goes to, by element path
   *  (boincProxyWUXMLBegin's return value); -1 for an element whose text
   *  is not kept. A message is kept only when it has attributes. */
  function ElementIndex(name: string, attrs: XmlParser.Attributes): int
  {
    if name == "request_delay" then WuDelay
    else if name == "message" then (if |attrs| > 0 then WuMessage else -1)
    else if name == "workunit>name" then WuName
    else if name == "workunit>rsc_fpops_est" then WuFlops
    else if name == "workunit>rsc_disk_bound" then WuDisk
    else if name == "workunit>rsc_memory_bound" then WuMemory
    else if name == "file_info>name" then WuFileInfoName
    else if name == "file_info>url" then WuFileInfoUrl
    else if name == "file_info>file_signature" then WuFileSignature
    else if name == "file_info>xml_signature" then WuXmlSignature
    else if name == "file_info>nbytes" then WuNBytes
    else if name == "file_info>max_nbytes" then WuMaxNBytes
    else if name == "file_info>md5_cksum" then WuChecksum
    else if name in {"app_version>file_ref>file_name", "workunit>file_ref>file_name", "result>file_ref>file_name"} then WuFileRef
    else if name == "result>name" then WuResultName
    else if name in {"app_version>file_ref>open_name", "workunit>file_ref>open_name", "result>file_ref>open_name"} then WuOpenName
    else if name == "result>report_deadline" then WuDeadline
    else if name == "app_version>version_num" then WuAppVersion
    else if name == "app_version>api_version" then WuApiVersion
    else -1
  }

  /** The structural step boincProxyWUXMLBegin takes for an element: a new
   *  file info, application or result record, the list the next file_ref
   *  goes to, or a flag. */
  function ElementAction(name: string, m: Manifest): (r: Manifest)
    ensures |r.table| >= |m.table| && r.files == m.files
    ensures r.app.Some? ==> r.app == m.app || r.app.value.files == []
    ensures r.result.Some? ==> r.result == m.result || r.result.value.files == []
  {
    if name == "file_info" then m.(table := m.table + [EmptyFileInfo])
    else if name == "file_info>executable" then FlagNewest(m, Executable)
    else if name == "file_info>generated_locally" then FlagNewest(m, Generated)
    else if name == "file_info>upload_when_present" then FlagNewest(m, Upload)
    else if name == "app_version" then m.(app := Some(App(None, None, None, [])))
    else if name == "result" then m.(result := Some(ResultInfo(None, 0, [])))
    else if name == "app_version>file_ref>file_name" then m.(current := AppFiles)
    else if name == "workunit>file_ref>file_name" then m.(current := WorkUnitFiles)
    else if name == "result>file_ref>file_name" then m.(current := ResultFiles)
    else if name == "app_version>file_ref>main_program" then FlagCurrentHead(m, MainProgram)
    else m
  }

  /** Sets a flag bit on the file info at the head of the current list. */
  function FlagCurrentHead(m: Manifest, bit: bv32): (r: Manifest)
    ensures r == m.(table := r.table) && |r.table| == |m.table|
  {
    var head := CurrentHead(m);
    if head.None? then m
    else m.(table := m.table[head.value := m.table[head.value].(flags := m.table[head.value].flags | bit)])
  }

  /** boincProxyWUXMLBegin. */
  function WuBegin(name: string, attrs: XmlParser.Attributes, m: Manifest): (int, Manifest)
  {
    (ElementIndex(name, attrs), ElementAction(name, m))
  }

  /** The indices whose text goes to the newest file info. */
  const FileInfoFields: set<int> := {WuFileInfoName, WuFileInfoUrl, WuFileSignature, WuXmlSignature, WuNBytes, WuMaxNBytes, WuChecksum}

  /** The text of a file_info child stored in the newest file info;
   *  nbytes also sets max_nbytes. */
  function FileInfoEnd(index: int, text: string, fi: FileInfo): FileInfo
  {
    var number := Numbers.LeadingInteger(text);
    if index == WuFileInfoName then fi.(name := Some(text))
    else if index == WuFileInfoUrl then fi.(url := Some(text))
    else if index == WuFileSignature then fi.(signature := Some(text))
    else if index == WuXmlSignature then fi.(xmlSignature := Some(text))
    else if index == WuNBytes then fi.(nBytes := number, maxBytes := number)
    else if index == WuMaxNBytes then fi.(maxBytes := number)
    else if index == WuChecksum then fi.(checksum := Some(text))
    else fi
  }

  /** The open name of the head of the current list, unless it has one. */
  function OpenNameEnd(text: string, m: Manifest): (r: Manifest)
    ensures r == m.(table := r.table) && |r.table| == |m.table|
  {
    var head := CurrentHead(m);
    if head.None? || m.table[head.value].openname.Some? then m
    else m.(table := m.table[head.value := m.table[head.value].(openname := Some(text))])
  }

  /** The text of a work-unit, result or application element. The
   *  work-unit and result names keep their first value; rsc_memory_bound
   *  is written to the disk estimate. */
  function HeaderEnd(index: int, text: string, m: Manifest): (r: Manifest)
    ensures r.table == m.table && r.files == m.files
    ensures r.app.Some? ==> m.app.Some? && r.app.value.files == m.app.value.files
    ensures r.result.Some? ==> m.result.Some? && r.result.value.files == m.result.value.files
  {
    var number := Numbers.LeadingInteger(text);
    if index == WuDelay then m.(delay := number)
    else if index == WuName then (if m.name.None? then m.(name := Some(text)) else m)
    else if index == WuResultName then
      (if m.result.Some? && m.result.value.name.None? then m.(result := Some(m.result.value.(name := Some(text)))) else m)
    else if index == WuFlops then m.(estimatedFlops := number)
    else if index == WuDisk then m.(estimatedDisk := number)
    else if index == WuMemory then m.(estimatedDisk := number)
    else if index == WuDeadline then (if m.result.Some? then m.(result := Some(m.result.value.(deadline := number))) else m)
    else if index == WuAppVersion then (if m.app.Some? then m.(app := Some(m.app.value.(version := Some(text)))) else m)
    else if index == WuApiVersion then (if m.app.Some? then m.(app := Some(m.app.value.(apiVersion := Some(text)))) else m)
    else m
  }

  /** boincProxyWUXMLEnd: the Error index reports an allocation failure;
   *  every other index stores the element's text where it belongs. */
  function WuEnd(index: int, text: string, m: Manifest): (Option<Error>, Manifest)
  {
    if index == WuError then (Some(Error(Fatal, System, Some("Out of memory"), 0)), m)
    else if index in FileInfoFields then (None, if HasNewest(m) then WithNewest(m, FileInfoEnd(index, text, Newest(m))) else m)
    else if index == WuFileRef then (None, AffectCurrentFileInfoFromName(m, text))
    else if index == WuOpenName then (None, OpenNameEnd(text, m))
    else (None, HeaderEnd(index, text, m))
  }

  /** Every file info is created empty and at the end of the table. */
  lemma FileInfoAppended(m: Manifest, attrs: XmlParser.Attributes)
    ensures WuBegin("file_info", attrs, m) == (-1, m.(table := m.table + [EmptyFileInfo]))
  {
  }

  /** The flag elements set their bit on the newest file info only. */
  lemma ExecutableFlag(m: Manifest)
    requires HasNewest(m)
    ensures ElementAction("file_info>executable", m) == WithNewest(m, Newest(m).(flags := Newest(m).flags | Executable))
  {
  }

  lemma GeneratedFlag(m: Manifest)
    requires HasNewest(m)
    ensures ElementAction("file_info>generated_locally", m) == WithNewest(m, Newest(m).(flags := Newest(m).flags | Generated))
  {
  }

  lemma UploadFlag(m: Manifest)
    requires HasNewest(m)
    ensures ElementAction("file_info>upload_when_present", m) == WithNewest(m, Newest(m).(flags := Newest(m).flags | Upload))
  {
  }

  /** A file_ref puts the newest file info of that name in front of the
   *  list its path selects; an unknown name is ignored. */
  lemma FileRefLinks(m: Manifest, name: string)
    requires m.current == WorkUnitFiles
    ensures var r := WuEnd(WuFileRef, name, m).1;
      match NewestNamed(m.table, name)
      case None => r == m
      case Some(k) => r == m.(files := [k] + m.files) && m.table[k].name == Some(name)
  {
  }

  /** The work-unit name, the result name and an open name keep the first
   *  value they get. */
  lemma FirstValueWins(m: Manifest, a: string, b: string)
    ensures WuEnd(WuName, b, WuEnd(WuName, a, m).1).1.name == (if m.name.Some? then m.name else Some(a))
    ensures m.result.Some? ==>
      WuEnd(WuResultName, b, WuEnd(WuResultName, a, m).1).1.result.value.name
        == (if m.result.value.name.Some? then m.result.value.name else Some(a))
    ensures CurrentHead(m).Some? ==>
      var k := CurrentHead(m).value;
      WuEnd(WuOpenName, b, WuEnd(WuOpenName, a, m).1).1.table[k].openname
        == (if m.table[k].openname.Some? then m.table[k].openname else Some(a))
  {
    if CurrentHead(m).Some? {
      var k := CurrentHead(m).value;
      var m1 := OpenNameEnd(a, m);
      assert HasCurrentList(m1) && CurrentList(m1) == CurrentList(m);
      assert CurrentHead(m1) == Some(k);
    }
  }

  /** nbytes falls through to max_nbytes, rsc_memory_bound is written to
   *  the disk estimate and leaves the memory estimate alone, and a
   *  request_delay is read as a number. */
  lemma NumericFields(m: Manifest, n: int)
    ensures HasNewest(m) ==>
      var r := WuEnd(WuNBytes, Numbers.Decimal(n), m).1;
      Newest(r).nBytes == n && Newest(r).maxBytes == n
    ensures var r := WuEnd(WuMemory, Numbers.Decimal(n), m).1;
      r.estimatedDisk == n && r.estimatedMemory == m.estimatedMemory
    ensures WuEnd(WuDelay, Numbers.Decimal(n), m).1.delay == n
  {
    Numbers.DecimalRoundTrip(n, "");
    assert Numbers.Decimal(n) + "" == Numbers.Decimal(n);
  }

  /** The begin callback keeps every list entry pointing into the table. */
  lemma BeginKeepsLinks(m: Manifest, name: string, attrs: XmlParser.Attributes)
    requires WellLinked(m)
    ensures WellLinked(WuBegin(name, attrs, m).1)
  {
  }

  /** So does the end callback. */
  lemma EndKeepsLinks(m: Manifest, index: int, text: string)
    requires WellLinked(m)
    ensures WellLinked(WuEnd(index, text, m).1)
  {
    if index == WuFileRef {
      var found := NewestNamed(m.table, text);
      if found.Some? && HasCurrentList(m) {
        var r := WithCurrentList(m, [found.value] + CurrentList(m));
        assert WellLinked(r);
      }
    }
  }

  /** Feeding any events to the callbacks keeps the lists linked. */
  lemma {:induction false} RunKeepsLinks(events: seq<XmlParser.Event>, s: XmlParser.State<Manifest>)
    requires |s.data| < XmlParser.BufferSize && WellLinked(s.user)
    ensures WellLinked(XmlParser.Run(events, s, WuBegin, WuEnd).user)
    decreases |events|
  {
    if |events| > 0 {
      forall name, attrs ensures WellLinked(WuBegin(name, attrs, s.user).1) {
        BeginKeepsLinks(s.user, name, attrs);
      }
      forall index, text ensures WellLinked(WuEnd(index, text, s.user).1) {
        EndKeepsLinks(s.user, index, text);
      }
      var next := XmlParser.Step(s, events[0], WuBegin, WuEnd);
      assert WellLinked(next.user);
      RunKeepsLinks(events[1..], next);
    }
  }

  /** So does a whole parse, whatever the file holds. */
  lemma ParseKeepsLinks(file: string, reply: XmlParser.Source, m: Manifest)
    requires WellLinked(m)
    ensures WellLinked(XmlParser.Parse(file, reply, m, WuBegin, WuEnd).1)
  {
    match reply
    case ReadFails(before) => RunKeepsLinks(before, XmlParser.Initial(m));
    case Malformed(before) => RunKeepsLinks(before, XmlParser.Initial(m));
    case Whole(events) => RunKeepsLinks(events, XmlParser.Initial(m));
    case _ =>
  }

  /** The reply of a work request is saved in the work unit's directory. */
  function RequestWorkFile(workingDir: string): string
  {
    Paths.Joined(workingDir, "workResponse.xml")
  }

  /** A parse that succeeds without a single file info but with a request
   *  delay means the server has no work. */
  predicate EmptyWorkUnit(err: Option<Error>, m: Manifest)
  {
    err.None? && |m.table| == 0 && m.delay != 0
  }

  /** boincProxyLoadWorkUnit: the reply is parsed into the work unit; an
   *  empty unit is a Delay/Server error carrying the requested delay
   *  (which stays recorded); otherwise the delay is cleared and the parse
   *  result returned. */
  function LoadWorkUnit(m: Manifest, workingDir: string, reply: XmlParser.Source): (r: (Option<Error>, Manifest))
    ensures var (err, parsed) := XmlParser.Parse(RequestWorkFile(workingDir), reply, m, WuBegin, WuEnd);
      && (EmptyWorkUnit(err, parsed) ==>
            r.0 == Some(CreateWithDelay(Server, Some("Empty work unit"), parsed.delay)) && r.1 == parsed)
      && (!EmptyWorkUnit(err, parsed) ==> r.0 == err && r.1 == parsed.(delay := 0))
  {
    var (err, parsed) := XmlParser.Parse(RequestWorkFile(workingDir), reply, m, WuBegin, WuEnd);
    if EmptyWorkUnit(err, parsed) then
      (Some(CreateWithDelay(Server, Some("Empty work unit"), parsed.delay)), parsed)
    else
      (err, parsed.(delay := 0))
  }

  /** Loading a work unit keeps its lists linked. */
  lemma LoadKeepsLinks(m: Manifest, workingDir: string, reply: XmlParser.Source)
    requires WellLinked(m)
    ensures WellLinked(LoadWorkUnit(m, workingDir, reply).1)
  {
    ParseKeepsLinks(RequestWorkFile(workingDir), reply, m);
  }

  // ---------------------------------------------------------------
  // boincProxyDownloadFile, before the transfer

  /** Permission bits: owner read and write, owner execute. */
  const OwnerReadWrite := 384
  const OwnerExecute := 64

  /** Where and how a file is saved: its URL, the full path (None when it
   *  does not fit the path buffer) and the mode set afterwards. */
  datatype Download = Download(url: string, path: Option<string>, mode: int)

  /** The name a downloaded file is saved under: its open name when that
   *  is non-empty, else its name; None when it has neither (the C code
   *  would hand a NULL name to the path builder). */
  function SaveName(fi: FileInfo): (r: Option<string>)
    ensures fi.openname.Some? && |fi.openname.value| > 0 ==> r == fi.openname
    ensures !(fi.openname.Some? && |fi.openname.value| > 0) ==> r == fi.name
  {
    if fi.openname.Some? && |fi.openname.value| > 0 then fi.openname else fi.name
  }

  /** A file without a URL is an Internal error; otherwise it is saved in
   *  the working directory under its open name when that is non-empty,
   *  else under its name, and made executable exactly when it is flagged
   *  executable or main program. */
  function DownloadRequest(fi: FileInfo, workingDir: string): (r: Result<Download, Error>)
    ensures r.Failure? <==> fi.url.None? || |fi.url.value| == 0
    ensures r.Failure? ==> r.error.kind == ErrorType && r.error.code == Internal
    ensures r.Success? ==> r.value.url == fi.url.value
    ensures r.Success? && fi.openname.Some? && |fi.openname.value| > 0 ==>
      r.value.path == Paths.GetAbsolutePath(workingDir, fi.openname.value, BuffSize)
    ensures r.Success? && !(fi.openname.Some? && |fi.openname.value| > 0) && fi.name.Some? ==>
      r.value.path == Paths.GetAbsolutePath(workingDir, fi.name.value, BuffSize)
    ensures r.Success? && !(fi.openname.Some? && |fi.openname.value| > 0) && fi.name.None? ==> r.value.path.None?
    ensures r.Success? ==> r.value.mode == OwnerReadWrite || r.value.mode == OwnerReadWrite + OwnerExecute
    ensures r.Success? ==> (r.value.mode == OwnerReadWrite + OwnerExecute <==> HasFlag(fi, Executable) || HasFlag(fi, MainProgram))
  {
    if fi.url.None? || |fi.url.value| == 0 then
      Failure(Error(ErrorType, Internal, Some("no url provided"), 0))
    else
      var executable := HasFlag(fi, Executable) || HasFlag(fi, MainProgram);
      var path := match SaveName(fi)
        case Some(name) => Paths.GetAbsolutePath(workingDir, name, BuffSize)
        case None => None;
      Success(Download(fi.url.value, path, if executable then OwnerReadWrite + OwnerExecute else OwnerReadWrite))
  }
}
