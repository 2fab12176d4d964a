/**
 * The SAX handler state that turns expat's element and text events into
 * calls of a begin callback (which picks an index for the element from
 * its '>'-separated path) and an end callback (which receives the
 * element's text). The callbacks act on a user value of type U.
 */
module XmlParser {
  import opened Wrappers
  import opened BoincErrors

  /** XMLBUFFSIZE: the text buffer keeps at most 511 characters. */
  const BufferSize := 512

  const PathSeparator: char := '>'

  /** An element's attributes as (name, value) pairs, in document order. */
  type Attributes = seq<(string, string)>

  /** The begin callback: element path, attributes, user value to index
   *  and new user value. */
  type BeginCallback<!U> = (string, Attributes, U) -> (int, U)

  /** The end callback: index, text, user value to error and new user value. */
  type EndCallback<!U> = (int, string, U) -> (Option<Error>, U)

  /** The parser struct: `data` is data_buff[0 .. data_offset]. */
  datatype State<U> = State(
    index: int,
    data: string,
    error: Option<Error>,
    fullName: string,
    level: int,
    user: U)

  /** The state boincXMLParse starts from. */
  function Initial<U>(user: U): State<U>
  {
    State(-1, "", None, "", -1, user)
  }

  /** The names joined by '>'. */
  function JoinPath(names: seq<string>): string
  {
    if |names| == 0 then ""
    else if |names| == 1 then names[0]
    else JoinPath(names[..|names| - 1]) + [PathSeparator] + names[|names| - 1]
  }

  predicate NoSeparator(name: string)
  {
    forall k :: 0 <= k < |name| ==> name[k] != PathSeparator
  }

  /** The path without its last '>' segment; unchanged without any '>'. */
  function CutLast(path: string): (r: string)
    ensures |r| <= |path|
  {
    if |path| == 0 then path
    else if path[|path| - 1] == PathSeparator then path[..|path| - 1]
    else
      var rest := CutLast(path[..|path| - 1]);
      if |rest| == |path| - 1 then path else rest
  }

  /** boincXMLParserStart. */
  function StartStep<U>(s: State<U>, el: string, attrs: Attributes, begin: BeginCallback<U>): (r: State<U>)
    ensures r.data == "" && r.level == s.level + 1 && r.error == s.error
    ensures s.error.Some? ==> r.index == -1 && r.user == s.user
  {
    var level := s.level + 1;
    var fullName := if level > 1 then s.fullName + [PathSeparator] + el else el;
    if s.error.Some? then s.(data := "", level := level, fullName := fullName, index := -1)
    else
      var (index, user) := begin(fullName, attrs, s.user);
      s.(data := "", level := level, fullName := fullName, index := index, user := user)
  }

  /** boincXMLParserData: text is kept only for an element with a
   *  non-negative index, and only up to the buffer's capacity. */
  function DataStep<U>(s: State<U>, text: string): (r: State<U>)
    requires |s.data| < BufferSize
    ensures |r.data| < BufferSize
    ensures r.(data := s.data) == s
    ensures s.index < 0 || |text| == 0 ==> r == s
    ensures s.index >= 0 && |s.data| + |text| < BufferSize ==> r.data == s.data + text
    ensures |r.data| >= |s.data| && r.data[..|s.data|] == s.data
    ensures r.data[|s.data|..] == text[..|r.data| - |s.data|]
  {
    if |text| < 1 || s.index < 0 then s
    else
      var room := BufferSize - |s.data| - 1;
      var taken := if |text| > room then text[..room] else text;
      s.(data := s.data + taken)
  }

  /** boincXMLParserEnd. */
  function EndStep<U>(s: State<U>, end: EndCallback<U>): (r: State<U>)
    ensures r.data == "" && r.index == -1 && r.level == s.level - 1
    ensures (|s.data| == 0 || s.index < 0) ==> r.error == s.error && r.user == s.user
    ensures s.level <= 0 ==> r.fullName == ""
    ensures s.level > 0 ==> r.fullName == CutLast(s.fullName)
  {
    var (error, user) := if |s.data| > 0 && s.index >= 0 then end(s.index, s.data, s.user) else (s.error, s.user);
    var fullName := if s.level > 0 then CutLast(s.fullName) else "";
    State(-1, "", error, fullName, s.level - 1, user)
  }

  /** A document as the events expat delivers. */
  datatype Event = StartElement(name: string, attrs: Attributes) | Text(text: string) | EndElement

  /** The handler one event reaches. */
  function Step<U>(s: State<U>, event: Event, begin: BeginCallback<U>, end: EndCallback<U>): (r: State<U>)
    requires |s.data| < BufferSize
  {
    match event
    case StartElement(name, attrs) => StartStep(s, name, attrs, begin)
    case Text(text) => DataStep(s, text)
    case EndElement => EndStep(s, end)
  }

  /** Feeds the events to the handlers in order. */
  function Run<U>(events: seq<Event>, s: State<U>, begin: BeginCallback<U>, end: EndCallback<U>): (r: State<U>)
    requires |s.data| < BufferSize
    ensures |r.data| < BufferSize
    decreases |events|
  {
    if |events| == 0 then s
    else Run(events[1..], Step(s, events[0], begin, end), begin, end)
  }

  /** What opening and reading an XML file yields: a file that cannot be
   *  opened (it may still exist), no parser, a read error or a syntax
   *  error after some events were delivered, or a whole document. */
  datatype Source =
    | Unopenable(present: bool)
    | NoParser
    | ReadFails(before: seq<Event>)
    | Malformed(before: seq<Event>)
    | Whole(events: seq<Event>)

  /** boincXMLParse: the error it returns and the user value the callbacks
   *  leave. A file that exists but cannot be opened is error -1 (major), a
   *  missing one 1 (minor); events delivered before a read or syntax error
   *  have run their callbacks. */
  function Parse<U>(file: string, source: Source, user: U, begin: BeginCallback<U>, end: EndCallback<U>): (r: (Option<Error>, U))
    ensures source.Unopenable? ==> r.0.Some? && r.0.value.code == (if source.present then -1 else 1) && r.1 == user
    ensures source.NoParser? ==> r.0.Some? && r.0.value.kind == Fatal && r.0.value.code == -2 && r.1 == user
    ensures source.ReadFails? ==> r.0.Some? && r.0.value.code == -3 && r.1 == Run(source.before, Initial(user), begin, end).user
    ensures source.Malformed? ==> r.0.Some? && r.0.value.code == -4 && r.1 == Run(source.before, Initial(user), begin, end).user
    ensures source.Whole? ==> var s := Run(source.events, Initial(user), begin, end); r == (s.error, s.user)
  {
    match source
    case Unopenable(present) =>
      if present then (Some(Error(ErrorType, -1, Some("Cannot access file"), 0)), user)
      else (Some(Error(ErrorType, 1, Some("Cannot open file " + file), 0)), user)
    case NoParser => (Some(Error(Fatal, -2, Some("Cannot create xml parser"), 0)), user)
    case ReadFails(before) =>
      (Some(Error(ErrorType, -3, Some("Cannot read file " + file), 0)), Run(before, Initial(user), begin, end).user)
    case Malformed(before) =>
      (Some(Error(ErrorType, -4, Some("Error in XML parsing"), 0)), Run(before, Initial(user), begin, end).user)
    case Whole(events) =>
      var s := Run(events, Initial(user), begin, end);
      (s.error, s.user)
  }

  /** Running two event sequences one after the other. */
  lemma {:induction false} RunAppend<U>(a: seq<Event>, b: seq<Event>, s: State<U>, begin: BeginCallback<U>, end: EndCallback<U>)
    requires |s.data| < BufferSize
    ensures Run(a + b, s, begin, end) == Run(b, Run(a, s, begin, end), begin, end)
    decreases |a|
  {
    if |a| > 0 {
      assert (a + b)[1..] == a[1..] + b;
      RunAppend(a[1..], b, Step(s, a[0], begin, end), begin, end);
    } else {
      assert a + b == b;
    }
  }

  lemma {:induction false} JoinPathAppend(names: seq<string>, el: string)
    requires |names| > 0
    ensures JoinPath(names + [el]) == JoinPath(names) + [PathSeparator] + el
  {
    assert (names + [el])[..|names|] == names;
  }

  /** Dropping the last segment of a joined path gives the path of the
   *  enclosing elements, as long as names carry no '>'. */
  lemma {:induction false} CutLastJoin(names: seq<string>)
    requires |names| >= 2
    requires forall k :: 0 <= k < |names| ==> NoSeparator(names[k])
    ensures CutLast(JoinPath(names)) == JoinPath(names[..|names| - 1])
  {
    var prefix := JoinPath(names[..|names| - 1]);
    var last := names[|names| - 1];
    CutLastPastName(prefix, last);
  }

  lemma {:induction false} CutLastPastName(prefix: string, last: string)
    requires NoSeparator(last)
    ensures CutLast(prefix + [PathSeparator] + last) == prefix
    decreases |last|
  {
    var path := prefix + [PathSeparator] + last;
    if |last| == 0 {
      assert path[..|path| - 1] == prefix;
    } else {
      assert path[|path| - 1] == last[|last| - 1];
      assert path[..|path| - 1] == prefix + [PathSeparator] + last[..|last| - 1];
      CutLastPastName(prefix, last[..|last| - 1]);
    }
  }

  /** Once an error is recorded no further callback runs: the error and
   *  the user value stay as they are whatever events follow. */
  lemma {:induction false} ErrorIsFinal<U>(events: seq<Event>, s: State<U>, begin: BeginCallback<U>, end: EndCallback<U>)
    requires |s.data| < BufferSize && s.error.Some? && s.index < 0
    ensures Run(events, s, begin, end).error == s.error
    ensures Run(events, s, begin, end).user == s.user
    decreases |events|
  {
    if |events| > 0 {
      var next := Step(s, events[0], begin, end);
      assert next.error == s.error && next.user == s.user && next.index < 0;
      ErrorIsFinal(events[1..], next, begin, end);
    }
  }

  /**
   * The parser struct, updated in place by the three handlers. The ghost
   * stack `open` holds the names of the open elements, document root first.
   */
  class Parser<U> {
    var index: int
    var data: string
    var error: Option<Error>
    var fullName: string
    var level: int
    var user: U
    ghost var open: seq<string>
    const begin: BeginCallback<U>
    const end: EndCallback<U>

    function Current(): State<U>
      reads this
    {
      State(index, data, error, fullName, level, user)
    }

    /** The text buffer never overflows, `level` is the depth of the
     *  innermost open element, and below the root `fullName` is the path
     *  of the open elements without the root. */
    ghost predicate Valid()
      reads this
    {
      && |data| < BufferSize
      && level == |open| - 1
      && (forall k :: 0 <= k < |open| ==> NoSeparator(open[k]))
      && (level >= 1 ==> fullName == JoinPath(open[1..]))
    }

    constructor (begin: BeginCallback<U>, end: EndCallback<U>, user: U)
      ensures Valid() && open == []
      ensures Current() == Initial(user)
      ensures this.begin == begin && this.end == end
    {
      index := -1;
      data := "";
      error := None;
      fullName := "";
      level := -1;
      this.user := user;
      open := [];
      this.begin := begin;
      this.end := end;
    }

    /** An element opens. */
    method Start(el: string, attrs: Attributes)
      requires Valid() && NoSeparator(el)
      modifies this
      ensures Valid() && open == old(open) + [el]
      ensures Current() == StartStep(old(Current()), el, attrs, begin)
    {
      data := "";
      level := level + 1;
      if level > 1 {
        JoinPathAppend(old(open)[1..], el);
        assert (old(open) + [el])[1..] == old(open)[1..] + [el];
        fullName := fullName + [PathSeparator] + el;
      } else {
        fullName := el;
      }
      open := open + [el];
      if error.Some? {
        index := -1;
      } else {
        var r := begin(fullName, attrs, user);
        index := r.0;
        user := r.1;
      }
    }

    /** Text arrives inside the current element. */
    method Data(text: string)
      requires Valid()
      modifies this
      ensures Valid() && open == old(open)
      ensures Current() == DataStep(old(Current()), text)
    {
      if |text| < 1 || index < 0 {
        return;
      }
      var len := |text|;
      if BufferSize - |data| < len + 1 {
        len := BufferSize - |data| - 1;
      }
      data := data + text[..len];
    }

    /** The current element closes. */
    method End()
      requires Valid() && |open| > 0
      modifies this
      ensures Valid() && open == old(open)[..|old(open)| - 1]
      ensures Current() == EndStep(old(Current()), end)
    {
      if |data| > 0 && index >= 0 {
        var r := end(index, data, user);
        error := r.0;
        user := r.1;
      }
      data := "";
      index := -1;
      PathAfterEnd(open, fullName, level);
      fullName := if level > 0 then CutLast(fullName) else "";
      level := level - 1;
      open := open[..|open| - 1];
    }
  }

  /** Closing an element below the first level restores the path of
   *  the enclosing elements. */
  lemma PathAfterEnd(open: seq<string>, fullName: string, level: int)
    requires level == |open| - 1 && |open| > 0
    requires forall k :: 0 <= k < |open| ==> NoSeparator(open[k])
    requires level >= 1 ==> fullName == JoinPath(open[1..])
    ensures level - 1 >= 1 ==> CutLast(fullName) == JoinPath(open[..|open| - 1][1..])
  {
    if level >= 2 {
      CutLastJoin(open[1..]);
      assert open[1..][..|open[1..]| - 1] == open[..|open| - 1][1..];
    }
  }

  /** The value paired with the first attribute called `name`. */
  function Lookup(attrs: Attributes, name: string): (r: Option<string>)
    ensures r.Some? ==>
      exists k :: 0 <= k < |attrs| && attrs[k] == (name, r.value) && (forall j :: 0 <= j < k ==> attrs[j].0 != name)
    ensures r.None? <==> forall k :: 0 <= k < |attrs| ==> attrs[k].0 != name
  {
    if |attrs| == 0 then None
    else if attrs[0].0 == name then Some(attrs[0].1)
    else
      var r := Lookup(attrs[1..], name);
      if r.Some? then
        var k :| 0 <= k < |attrs[1..]| && attrs[1..][k] == (name, r.value)
          && (forall j :: 0 <= j < k ==> attrs[1..][j].0 != name);
        assert attrs[k + 1] == (name, r.value);
        r
      else r
  }

  /** boincXMLGetAttributeValue: scans the pairs in order. */
  method GetAttributeValue(attrs: Attributes, name: string) returns (r: Option<string>)
    ensures r == Lookup(attrs, name)
  {
    var i := 0;
    while i < |attrs|
      invariant 0 <= i <= |attrs|
      invariant Lookup(attrs, name) == Lookup(attrs[i..], name)
    {
      if attrs[i].0 == name {
        return Some(attrs[i].1);
      }
      assert attrs[i..][1..] == attrs[i + 1..];
      i := i + 1;
    }
    return None;
  }

  /** boincXMLAttributeCompare: -1 when absent, 0 when equal, 1 otherwise. */
  function AttributeCompare(attrs: Attributes, name: string, value: string): (r: int)
    ensures r == -1 <==> forall k :: 0 <= k < |attrs| ==> attrs[k].0 != name
    ensures r == 0 <==> Lookup(attrs, name) == Some(value)
    ensures r == 1 <==> Lookup(attrs, name).Some? && Lookup(attrs, name).value != value
  {
    match Lookup(attrs, name)
    case None => -1
    case Some(v) => if v == value then 0 else 1
  }
}
