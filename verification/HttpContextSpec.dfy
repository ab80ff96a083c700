/** What src/HttpContext.cc and src/HttpRequest.cc compute, as functions of the
    buffer: the request a client sent, field by field. */
module HttpContextSpec {
  import opened Lines
  import opened CStrings

  datatype HttpCode = NO_REQUEST | GET_REQUEST | BAD_REQUEST | NO_RESOURCE | FORBIDDEN_REQUEST
                    | FILE_REQUEST | INTERNAL_ERROR | CLOSED_CONNECTION

  datatype CheckState = RequestLine | Header | Content

  datatype Request = Request(
    code: HttpCode,
    method_: seq<char>,
    path: seq<char>,
    query: seq<char>,
    version: seq<char>,
    headers: map<seq<char>, seq<char>>)

  const Blank := Request(NO_REQUEST, [], [], [], [], map[])

  datatype Context = Context(
    buf: seq<char>,      // buf_ up to readIdx_
    checked: nat,
    start: nat,
    state: CheckState,
    request: Request)
  {
    /** The scanner never leaves a CR just behind it. */
    ghost predicate Scanned() {
      start <= checked <= |buf| && (checked > 0 ==> buf[checked - 1] != '\r')
    }
  }

  /** A context after reset() and setBuffer(). */
  function Fresh(buf: seq<char>): Context {
    Context(buf, 0, 0, RequestLine, Blank)
  }

  /** parseRequest returns a code, or never returns because addHeader's trim loop
      makes no progress. */
  datatype Result = Returns(code: HttpCode) | Diverges

  /** std::find(s + i, s + |s|, c) */
  function Find(s: seq<char>, i: nat, c: char): (r: nat)
    requires i <= |s|
    ensures i <= r <= |s|
    ensures r < |s| ==> s[r] == c
    ensures forall k | i <= k < r :: s[k] != c
    decreases |s| - i
  {
    if i == |s| || s[i] == c then i else Find(s, i + 1, c)
  }

  const PROTOCOL := "HTTP/1."

  predicate IsVersion(v: seq<char>) {
    |v| == 8 && v[..7] == PROTOCOL
  }

  function SetTarget(r: Request, target: seq<char>): Request {
    var q := Find(target, 0, '?');
    if q < |target| then r.(path := target[..q], query := target[q..]) else r.(path := target)
  }

  /** parseRequestLine: whether the line was accepted, and the fields it set. */
  function TakeRequestLine(r: Request, line: seq<char>): (bool, Request) {
    var a := Find(line, 0, ' ');
    if a == |line| then (false, r)
    else if a == 0 then (false, r.(method_ := []))
    else
      var r1 := r.(method_ := line[..a]);
      var b := Find(line, a + 1, ' ');
      if b == |line| then (false, r1)
      else
        var r2 := SetTarget(r1, line[a + 1..b]);
        if IsVersion(line[b + 1..]) then (true, r2.(version := line[b + 1..])) else (false, r2)
  }

  /** A header value behind its colon: addHeader skips white space in front. */
  function TrimLeft(s: seq<char>): (r: seq<char>)
    ensures r == [] || !IsSpace(r[0])
    ensures |r| <= |s| && r == s[|s| - |r|..]
  {
    if s != [] && IsSpace(s[0]) then TrimLeft(s[1..]) else s
  }

  /** addHeader never returns when white space is left at the end of the value. */
  predicate Stuck(value: seq<char>) {
    value != [] && IsSpace(value[|value| - 1])
  }

  /** parseHeader: None when it never returns. A line without a colon ends the
      header section. */
  function TakeHeader(r: Request, line: seq<char>): Option<(CheckState, Request)> {
    var colon := Find(line, 0, ':');
    if colon == |line| then Some((Content, r))
    else
      var value := TrimLeft(line[colon + 1..]);
      if Stuck(value) then None else Some((Header, r.(headers := r.headers[line[..colon] := value])))
  }

  /** The line parseLine found: from where the last one ended up to the CR. */
  function LineOf(c: Context, scan: Scan): seq<char>
    requires c.start <= scan.at - 2 && scan.at <= |scan.buf|
  {
    scan.buf[c.start..scan.at - 2]
  }

  function PastLine(c: Context, scan: Scan): Context {
    c.(buf := scan.buf, checked := scan.at, start := scan.at)
  }

  lemma LineBounds(c: Context)
    requires c.Scanned() && ScanLine(c.buf, c.checked).status == LineOk
    ensures c.start <= ScanLine(c.buf, c.checked).at - 2 && PastLine(c, ScanLine(c.buf, c.checked)).Scanned()
  {
    ScanLineMeaning(c.buf, c.checked);
  }

  /** One turn of parseRequest's loop: it returns, or goes on to the next line. */
  datatype Turn = Stop(result: Result, next: Context) | Go(next: Context)

  /** The switch of parseRequest on a line. */
  function TakeLine(d: Context, line: seq<char>): (t: Turn)
    ensures t.next == d.(state := t.next.state, request := t.next.request)
  {
    if d.state == RequestLine then
      var (ok, request) := TakeRequestLine(d.request, line);
      if ok then Go(d.(state := Header, request := request))
      else Stop(Returns(BAD_REQUEST), d.(request := request.(code := BAD_REQUEST)))
    else
      match TakeHeader(d.request, line)
      case None => Stop(Diverges, d)
      case Some((state, request)) => Go(d.(state := state, request := request))
  }

  /** parseRequest */
  function Parse(c: Context): (r: (Result, Context))
    requires c.Scanned()
    decreases |c.buf| - c.checked
  {
    if c.state == Content then
      (Returns(GET_REQUEST), c.(start := c.checked, request := c.request.(code := GET_REQUEST)))
    else
      var scan := ScanLine(c.buf, c.checked);
      if scan.status != LineOk then
        (Returns(GET_REQUEST), c.(buf := scan.buf, checked := scan.at, request := c.request.(code := GET_REQUEST)))
      else
        LineBounds(c);
        var turn := TakeLine(PastLine(c, scan), LineOf(c, scan));
        if turn.Go? then Parse(turn.next) else (turn.result, turn.next)
  }

  /** parseRequest when no further line is complete. */
  lemma ParseEnds(c: Context)
    requires c.Scanned() && c.state != Content && ScanLine(c.buf, c.checked).status != LineOk
    ensures var scan := ScanLine(c.buf, c.checked);
            Parse(c) == (Returns(GET_REQUEST), c.(buf := scan.buf, checked := scan.at,
                                                  request := c.request.(code := GET_REQUEST)))
  {
  }

  /** parseRequest behind the header section. */
  lemma ParseStops(c: Context)
    requires c.Scanned() && c.state == Content
    ensures Parse(c) == (Returns(GET_REQUEST), c.(start := c.checked, request := c.request.(code := GET_REQUEST)))
  {
  }

  /** One turn of parseRequest's loop. */
  lemma ParseTurn(c: Context)
    requires c.Scanned() && c.state != Content && ScanLine(c.buf, c.checked).status == LineOk
    ensures var scan := ScanLine(c.buf, c.checked);
            && c.start <= scan.at - 2 && PastLine(c, scan).Scanned()
            && var turn := TakeLine(PastLine(c, scan), LineOf(c, scan));
            && turn.next.Scanned()
            && Parse(c) == if turn.Go? then Parse(turn.next) else (turn.result, turn.next)
  {
    LineBounds(c);
    hide TakeLine, ScanLine, LineOf;
    TurnIsScanned(PastLine(c, ScanLine(c.buf, c.checked)), LineOf(c, ScanLine(c.buf, c.checked)));
    hide PastLine;
  }

  lemma TurnIsScanned(d: Context, line: seq<char>)
    requires d.Scanned()
    ensures TakeLine(d, line).next.Scanned()
  {
    hide TakeLine;
  }

  // ---------- what a request line says ----------

  lemma {:induction false} FindAt(s: seq<char>, i: nat, c: char, m: nat)
    requires i <= m <= |s| && (m < |s| ==> s[m] == c) && forall k | i <= k < m :: s[k] != c
    ensures Find(s, i, c) == m
    decreases m - i
  {
    if i < m {
      FindAt(s, i + 1, c, m);
    }
  }

  /** A search past a prefix for a character that the next stretch lacks. */
  lemma FindAfter(pre: seq<char>, s: seq<char>, c: char, tail: seq<char>)
    requires c !in s
    ensures Find(pre + s + [c] + tail, |pre|, c) == |pre| + |s|
    ensures Find(pre + s, |pre|, c) == |pre| + |s|
  {
    var t := pre + s + [c] + tail;
    forall k | |pre| <= k < |pre| + |s|
      ensures t[k] != c && (pre + s)[k] != c
    {
      assert t[k] == s[k - |pre|] && (pre + s)[k] == s[k - |pre|];
    }
    FindAt(t, |pre|, c, |pre| + |s|);
    FindAt(pre + s, |pre|, c, |pre| + |s|);
  }

  lemma TargetSplit(r: Request, path: seq<char>, query: seq<char>)
    requires '?' !in path && (query == [] || query[0] == '?')
    ensures SetTarget(r, path + query) == if query == [] then r.(path := path) else r.(path := path, query := query)
  {
    if query == [] {
      FindAfter([], path, '?', []);
      assert [] + path == path + query;
    } else {
      FindAfter([], path, '?', query[1..]);
      assert [] + path + ['?'] + query[1..] == path + query;
    }
  }

  lemma LineParts(m: seq<char>, t: seq<char>, v: seq<char>)
    ensures var line := m + " " + t + " " + v;
            && |line| == |m| + 1 + |t| + 1 + |v|
            && line[..|m|] == m && line[|m| + 1..|m| + 1 + |t|] == t && line[|m| + 1 + |t| + 1..] == v
            && line == [] + m + " " + (t + " " + v) && line == (m + " ") + t + " " + v
  {
  }

  /** A line of method, target and version, the first two without spaces, is accepted
      exactly when the method is not empty and the version is HTTP/1. and one more
      character; the method, path, query and version are then those of the line. */
  lemma RequestLineMeans(r: Request, m: seq<char>, path: seq<char>, query: seq<char>, v: seq<char>)
    requires ' ' !in m && ' ' !in path && ' ' !in query
    requires '?' !in path && (query == [] || query[0] == '?')
    ensures var (ok, r') := TakeRequestLine(r, m + " " + (path + query) + " " + v);
            && (ok <==> m != [] && IsVersion(v))
            && (ok ==> r' == r.(method_ := m, path := path, version := v,
                                query := if query == [] then r.query else query))
  {
    hide Find, SetTarget, IsVersion;
    var t := path + query;
    LineParts(m, t, v);
    FindAfter([], m, ' ', t + " " + v);
    FindAfter(m + " ", t, ' ', v);
    TargetSplit(r.(method_ := m), path, query);
  }

  // ---------- what the header lines say ----------

  /** A header line: any name without a colon, and anything behind the colon. */
  datatype Field = Field(key: seq<char>, value: seq<char>)
  {
    predicate Ok() {
      ':' !in key && NoLineEnd(key) && NoLineEnd(value)
    }

    function Text(): seq<char> {
      key + ":" + value
    }

    function Taken(): seq<char> {
      TrimLeft(value)
    }
  }

  /** A header as it is usually sent, with one space in front of the value. */
  function Sent(key: seq<char>, value: seq<char>): Field {
    Field(key, " " + value)
  }

  lemma TrimSpace(s: seq<char>)
    ensures TrimLeft(" " + s) == TrimLeft(s)
  {
    assert (" " + s)[1..] == s;
  }

  /** Every line with a colon is such a header line. */
  lemma ColonMakesField(line: seq<char>) returns (f: Field)
    requires NoLineEnd(line) && ':' in line
    ensures f.Ok() && f.Text() == line
  {
    var i := Find(line, 0, ':');
    f := Field(line[..i], line[i + 1..]);
  }

  lemma FieldMeans(r: Request, f: Field)
    requires f.Ok()
    ensures TakeHeader(r, f.Text()) ==
            if Stuck(f.Taken()) then None else Some((Header, r.(headers := r.headers[f.key := f.Taken()])))
  {
    hide TrimLeft, Stuck, Find;
    FindAfter([], f.key, ':', f.value);
    assert [] + f.key + [':'] + f.value == f.Text();
    assert f.Text()[..|f.key|] == f.key;
    assert f.Text()[|f.key| + 1..] == f.value;
  }

  function RenderFields(fields: seq<Field>): seq<char> {
    if fields == [] then [] else fields[0].Text() + "\r\n" + RenderFields(fields[1..])
  }

  /** The buffer where these fields stood, after parseLine. */
  function ScannedFields(fields: seq<Field>): (r: seq<char>)
    ensures r != [] ==> r[|r| - 1] == NUL
  {
    if fields == [] then [] else fields[0].Text() + [NUL, NUL] + ScannedFields(fields[1..])
  }

  /** The header map: a later field of the same name replaces an earlier one. */
  function FieldMap(fields: seq<Field>, before: map<seq<char>, seq<char>>): map<seq<char>, seq<char>> {
    if fields == [] then before
    else FieldMap(fields[1..], before[fields[0].key := fields[0].Taken()])
  }

  /** Looking a name up in the map finds the value of its last field, if it has one. */
  lemma {:induction false} LastFieldWins(fields: seq<Field>, before: map<seq<char>, seq<char>>,
                                             key: seq<char>, last: int)
    requires -1 <= last < |fields| && (last >= 0 ==> fields[last].key == key)
    requires forall k | last < k < |fields| :: fields[k].key != key
    ensures last >= 0 ==> key in FieldMap(fields, before) && FieldMap(fields, before)[key] == fields[last].Taken()
    ensures last < 0 ==> (key in FieldMap(fields, before) <==> key in before)
    ensures last < 0 && key in before ==> FieldMap(fields, before)[key] == before[key]
    decreases |fields|
  {
    hide TrimLeft;
    if fields != [] {
      var before' := before[fields[0].key := fields[0].Taken()];
      LastFieldWins(fields[1..], before', key, if last >= 0 then last - 1 else -1);
    }
  }

  function MovedTo(c: Context, read: seq<char>, rest: seq<char>): Context {
    c.(buf := read + rest, checked := |read|, start := |read|)
  }

  /** parseRequest's step over one line in the header section. */
  lemma HeaderStep(c: Context, pre: seq<char>, line: seq<char>, rest: seq<char>)
    requires c.state == Header && c.start == c.checked == |pre| && c.buf == pre + line + "\r\n" + rest
    requires NoLineEnd(line) && (pre != [] ==> pre[|pre| - 1] != '\r')
    ensures var d := MovedTo(c, pre + line + [NUL, NUL], rest);
            && c.Scanned() && d.Scanned()
            && Parse(c) ==
               match TakeHeader(c.request, line)
               case None => (Diverges, d)
               case Some((state, request)) => Parse(d.(state := state, request := request))
  {
    hide ScanLine, TakeHeader, TakeRequestLine;
    ScanRenderedLine(pre, line, rest);
    LineInMiddle(pre, line, [NUL, NUL] + rest);
    Assoc(pre + line, [NUL, NUL], rest);
    var scan := ScanLine(c.buf, c.checked);
    assert LineOf(c, scan) == line;
    assert PastLine(c, scan) == MovedTo(c, pre + line + [NUL, NUL], rest);
  }

  lemma LineInMiddle(pre: seq<char>, line: seq<char>, tail: seq<char>)
    ensures (pre + line + tail)[|pre|..|pre| + |line|] == line
  {
  }

  /** Whether some field's value sends addHeader into its endless loop. */
  predicate AnyStuck(fields: seq<Field>) {
    exists k :: 0 <= k < |fields| && Stuck(fields[k].Taken())
  }

  /** Where parseRequest ends up behind a header section and the line that ends it. */
  function AfterFields(c: Context, pre: seq<char>, fields: seq<Field>, end: seq<char>, rest: seq<char>): Context {
    MovedTo(c, pre + ScannedFields(fields) + end + [NUL, NUL], rest).(
      state := Content,
      request := c.request.(headers := FieldMap(fields, c.request.headers), code := GET_REQUEST))
  }

  lemma AnyStuckFront(fields: seq<Field>)
    requires fields != []
    ensures AnyStuck(fields) <==> Stuck(fields[0].Taken()) || AnyStuck(fields[1..])
  {
    hide Stuck, TrimLeft;
    if AnyStuck(fields[1..]) {
      var k :| 0 <= k < |fields[1..]| && Stuck(fields[1..][k].Taken());
      assert Stuck(fields[k + 1].Taken());
    }
    if AnyStuck(fields) && !Stuck(fields[0].Taken()) {
      var k :| 0 <= k < |fields| && Stuck(fields[k].Taken());
      assert Stuck(fields[1..][k - 1].Taken());
    }
  }

  /** A line without a colon, the empty one above all, ends the header section. */
  lemma ColonlessEnds(r: Request, end: seq<char>)
    requires ':' !in end
    ensures TakeHeader(r, end) == Some((Content, r))
  {
    FindAt(end, 0, ':', |end|);
  }

  /** Where parseRequest stands behind some header lines, with `more` to come. */
  function PastFields(c: Context, pre: seq<char>, fields: seq<Field>, more: seq<char>): Context {
    MovedTo(c, pre + ScannedFields(fields), more).(
      request := c.request.(headers := FieldMap(fields, c.request.headers)))
  }

  lemma PastFieldsStep(c: Context, pre: seq<char>, fields: seq<Field>, more: seq<char>)
    requires fields != []
    ensures var f, later := fields[0], fields[1..];
            var headers := c.request.headers[f.key := f.Taken()];
            var pre' := pre + f.Text() + [NUL, NUL];
            var d := MovedTo(c, pre', RenderFields(later) + more).(request := c.request.(headers := headers));
            PastFields(d, pre', later, more) == PastFields(c, pre, fields, more)
  {
    hide TrimLeft;
    var f, later := fields[0], fields[1..];
    Regroup(pre, f.Text(), [NUL, NUL], ScannedFields(later), []);
    Assoc(pre, ScannedFields(fields), more);
    assert pre + f.Text() + [NUL, NUL] + ScannedFields(later) == pre + ScannedFields(fields);
  }

  /** parseRequest over any header lines, whatever follows: it never gets past them when a
      value is left with white space at its end, and otherwise has taken every field. */
  lemma {:induction false} FieldsPass(c: Context, pre: seq<char>, fields: seq<Field>, more: seq<char>)
    requires c.state == Header && c.start == c.checked == |pre|
    requires c.buf == pre + RenderFields(fields) + more
    requires pre != [] ==> pre[|pre| - 1] != '\r'
    requires forall k | 0 <= k < |fields| :: fields[k].Ok()
    ensures c.Scanned() && PastFields(c, pre, fields, more).Scanned()
    ensures if AnyStuck(fields) then Parse(c).0 == Diverges
            else Parse(c) == Parse(PastFields(c, pre, fields, more))
    decreases |fields|
  {
    hide TakeHeader, Stuck, Find, Parse, TrimLeft;
    if fields == [] {
      assert pre + [] == pre;
      assert PastFields(c, pre, fields, more) == c;
    } else {
      var f, later := fields[0], fields[1..];
      var pre' := pre + f.Text() + [NUL, NUL];
      Regroup(pre, f.Text(), "\r\n", RenderFields(later), more);
      HeaderStep(c, pre, f.Text(), RenderFields(later) + more);
      FieldMeans(c.request, f);
      AnyStuckFront(fields);
      PastFieldsStep(c, pre, fields, more);
      Regroup(pre, f.Text(), [NUL, NUL], RenderFields(later), more);
      var headers := c.request.headers[f.key := f.Taken()];
      var d := MovedTo(c, pre', RenderFields(later) + more).(request := c.request.(headers := headers));
      hide PastFields, RenderFields, AnyStuck;
      FieldsPass(d, pre', later, more);
    }
  }

  /** parseRequest over a whole header section, up to the first line without a colon: it
      returns exactly when no value is left with white space at its end, with every
      field in the header map. */
  lemma FieldsMean(c: Context, pre: seq<char>, fields: seq<Field>, end: seq<char>, rest: seq<char>)
    requires c.state == Header && c.start == c.checked == |pre|
    requires c.buf == pre + RenderFields(fields) + (end + "\r\n" + rest)
    requires pre != [] ==> pre[|pre| - 1] != '\r'
    requires forall k | 0 <= k < |fields| :: fields[k].Ok()
    requires ':' !in end && NoLineEnd(end)
    ensures c.Scanned()
    ensures if AnyStuck(fields) then Parse(c).0 == Diverges
            else Parse(c) == (Returns(GET_REQUEST), AfterFields(c, pre, fields, end, rest))
  {
    FieldsPass(c, pre, fields, end + "\r\n" + rest);
    if !AnyStuck(fields) {
      hide TakeHeader, AnyStuck, Parse, FieldMap, RenderFields, ScannedFields;
      SectionEnds(PastFields(c, pre, fields, end + "\r\n" + rest), pre + ScannedFields(fields), end, rest);
    }
  }

  /** parseRequest's last line. */
  lemma SectionEnds(d: Context, pre: seq<char>, end: seq<char>, rest: seq<char>)
    requires d.state == Header && d.start == d.checked == |pre| && d.buf == pre + (end + "\r\n" + rest)
    requires pre != [] ==> pre[|pre| - 1] != '\r'
    requires ':' !in end && NoLineEnd(end)
    ensures d.Scanned()
    ensures Parse(d) == (Returns(GET_REQUEST), MovedTo(d, pre + end + [NUL, NUL], rest).(
                           state := Content, request := d.request.(code := GET_REQUEST)))
  {
    hide TakeHeader, Parse;
    assert d.buf == pre + end + "\r\n" + rest;
    HeaderStep(d, pre, end, rest);
    ColonlessEnds(d.request, end);
    ParseStops(MovedTo(d, pre + end + [NUL, NUL], rest).(state := Content));
  }

  // ---------- whole requests ----------

  /** A request as sections 3.1.1 and 3.2 of RFC 7230 write it; the query carries its
      question mark. */
  datatype Message = Message(
    method_: seq<char>, path: seq<char>, query: seq<char>, version: seq<char>, fields: seq<Field>)
  {
    /** The parts of the first line can be told apart. */
    predicate LineOk() {
      ' ' !in method_ && ' ' !in path && ' ' !in query && '?' !in path && (query == [] || query[0] == '?')
    }

    predicate Ok() {
      LineOk() && NoLineEnd(FirstLine()) && forall k | 0 <= k < |fields| :: fields[k].Ok()
    }

    function FirstLine(): seq<char> {
      method_ + " " + (path + query) + " " + version
    }

    function Text(): seq<char> {
      FirstLine() + "\r\n" + (RenderFields(fields) + "\r\n")
    }

    /** The first line is one parseRequestLine accepts. */
    predicate Accepted() {
      method_ != [] && IsVersion(version)
    }

    function AsRequest(): Request {
      Request(GET_REQUEST, method_, path, query, version, FieldMap(fields, map[]))
    }

    /** The first line of the message is this one, and it is accepted. */
    predicate Says(line: seq<char>) {
      LineOk() && FirstLine() == line && Accepted()
    }
  }

  lemma NotInSlice(s: seq<char>, i: nat, j: nat, c: char)
    requires i <= j <= |s| && forall k | i <= k < j :: s[k] != c
    ensures c !in s[i..j]
  {
  }

  /** A line with two spaces falls into method, path, query and version. */
  lemma Decompose(line: seq<char>, fields: seq<Field>) returns (m: Message)
    requires Find(line, 0, ' ') < |line| && Find(line, Find(line, 0, ' ') + 1, ' ') < |line|
    ensures m.LineOk() && m.FirstLine() == line && m.fields == fields
  {
    var a := Find(line, 0, ' ');
    var b := Find(line, a + 1, ' ');
    var target := line[a + 1..b];
    var q := Find(target, 0, '?');
    m := Message(line[..a], target[..q], target[q..], line[b + 1..], fields);
    hide Find;
    NotInSlice(line, 0, a, ' ');
    NotInSlice(line, a + 1, b, ' ');
    NotInSlice(target, 0, q, '?');
    assert line[0..a] == line[..a] && target[0..q] == target[..q];
    assert target == target[..q] + target[q..];
    assert ' ' !in target[..q] && ' ' !in target[q..];
    FourParts(line, a, b);
  }

  lemma FourParts(line: seq<char>, a: nat, b: nat)
    requires a < b < |line| && line[a] == ' ' == line[b]
    ensures line[..a] + " " + line[a + 1..b] + " " + line[b + 1..] == line
  {
  }

  /**
   * For every line: parseRequestLine accepts it if and only if it is a nonempty method, a
   * target and HTTP/1. with one more character, set apart by single spaces.
   */
  lemma AcceptedExactly(r: Request, line: seq<char>, fields: seq<Field>)
    ensures TakeRequestLine(r, line).0 <==> exists m: Message :: m.fields == fields && m.Says(line)
  {
    hide IsVersion, SetTarget;
    if Find(line, 0, ' ') < |line| && Find(line, Find(line, 0, ' ') + 1, ' ') < |line| {
      var m := Decompose(line, fields);
      RequestLineMeans(r, m.method_, m.path, m.query, m.version);
      assert m.Accepted() ==> m.fields == fields && m.Says(line);
    }
    hide TakeRequestLine;
    forall m: Message | m.fields == fields && m.Says(line)
      ensures TakeRequestLine(r, line).0
    {
      RequestLineMeans(r, m.method_, m.path, m.query, m.version);
    }
  }

  /** parseRequest's step over any first line. */
  lemma AnyFirstLineStep(line: seq<char>, more: seq<char>)
    requires NoLineEnd(line)
    ensures var c := Fresh(line + "\r\n" + more);
            var d := MovedTo(c, line + [NUL, NUL], more);
            var (ok, r) := TakeRequestLine(Blank, line);
            && c.Scanned() && d.Scanned()
            && (if ok then Parse(c) == Parse(d.(state := Header, request := r))
                else Parse(c).0 == Returns(BAD_REQUEST) && Parse(c).1.request.code == BAD_REQUEST)
            && (!ok ==> Parse(c).1.state == RequestLine)
  {
    hide ScanLine, TakeRequestLine;
    ScanRenderedLine([], line, more);
    Leading(line, "\r\n", more);
    Leading(line, [NUL, NUL], more);
    LineInMiddle([], line, [NUL, NUL] + more);
    assert [] + line + ([NUL, NUL] + more) == line + [NUL, NUL] + more;
    assert [] + line == line;
  }

  lemma FirstLineTaken(m: Message)
    requires m.Ok()
    ensures var (ok, r) := TakeRequestLine(Blank, m.FirstLine());
            && (ok <==> m.Accepted())
            && (ok ==> r == Blank.(method_ := m.method_, path := m.path, query := m.query, version := m.version))
  {
    hide TakeRequestLine;
    RequestLineMeans(Blank, m.method_, m.path, m.query, m.version);
  }

  /** What a request says once its first line is accepted: its header section, up to `end`. */
  lemma SectionStep(m: Message, end: seq<char>, body: seq<char>)
    requires m.Ok() && m.Accepted() && ':' !in end && NoLineEnd(end)
    ensures var text := m.FirstLine() + "\r\n" + (RenderFields(m.fields) + (end + "\r\n" + body));
            var (result, c) := Parse(Fresh(text));
            && Fresh(text).Scanned()
            && (result == Diverges <==> AnyStuck(m.fields))
            && (!AnyStuck(m.fields) ==>
                  && result == Returns(GET_REQUEST) && c.request == m.AsRequest() && c.state == Content
                  && c.start == c.checked == |text| - |body| <= |c.buf| && c.buf[c.checked..] == body)
  {
    hide m.FirstLine, m.Accepted, RenderFields, ScannedFields, AnyStuck, FieldMap, Parse;
    var line, fields := m.FirstLine(), RenderFields(m.fields);
    var more := fields + (end + "\r\n" + body);
    AnyFirstLineStep(line, more);
    FirstLineTaken(m);
    var pre := line + [NUL, NUL];
    var d := MovedTo(Fresh(line + "\r\n" + more), pre, more).(state := Header,
      request := Blank.(method_ := m.method_, path := m.path, query := m.query, version := m.version));
    Assoc(pre, fields, end + "\r\n" + body);
    FieldsMean(d, pre, m.fields, end, body);
    ScannedFieldsLength(m.fields);
    BodyBehind(pre + ScannedFields(m.fields) + end + [NUL, NUL], body);
  }

  /**
   * Parsing any first line, any header lines and any first line without a colon, with any
   * body behind it: a line that is not a request line is answered BAD_REQUEST; otherwise
   * parsing returns exactly when no header value ends in white space, and then the
   * request has exactly the method, path, query and version sent and the header map of
   * its fields, and the body is untouched behind checkedIdx.
   */
  lemma RequestMeans(line: seq<char>, fields: seq<Field>, end: seq<char>, body: seq<char>)
    requires NoLineEnd(line) && forall k | 0 <= k < |fields| :: fields[k].Ok()
    requires ':' !in end && NoLineEnd(end)
    ensures var text := line + "\r\n" + (RenderFields(fields) + (end + "\r\n" + body));
            var (result, c) := Parse(Fresh(text));
            && Fresh(text).Scanned()
            && (result == Returns(BAD_REQUEST) <==> !exists m: Message :: m.fields == fields && m.Says(line))
            && (forall m: Message | m.fields == fields && m.Says(line) ::
                  && (result == Diverges <==> AnyStuck(fields))
                  && (!AnyStuck(fields) ==>
                        && result == Returns(GET_REQUEST) && c.request == m.AsRequest() && c.state == Content
                        && c.checked == |text| - |body| <= |c.buf| && c.buf[c.checked..] == body))
  {
    AnyFirstLineStep(line, RenderFields(fields) + (end + "\r\n" + body));
    AcceptedExactly(Blank, line, fields);
    hide Parse, TakeRequestLine, AnyStuck, RenderFields;
    forall m: Message | m.fields == fields && m.Says(line)
      ensures var text := line + "\r\n" + (RenderFields(fields) + (end + "\r\n" + body));
              var (result, c) := Parse(Fresh(text));
              && (result == Diverges <==> AnyStuck(fields))
              && (!AnyStuck(fields) ==>
                    && result == Returns(GET_REQUEST) && c.request == m.AsRequest() && c.state == Content
                    && c.checked == |text| - |body| <= |c.buf| && c.buf[c.checked..] == body)
    {
      SectionStep(m, end, body);
    }
  }

  lemma TextAndBody(line: seq<char>, fields: seq<char>, body: seq<char>)
    ensures line + "\r\n" + (fields + "\r\n") + body == line + "\r\n" + (fields + ([] + "\r\n" + body))
  {
  }

  lemma BodyBehind(read: seq<char>, body: seq<char>)
    ensures (read + body)[|read|..] == body
  {
  }

  lemma {:induction false} ScannedFieldsLength(fields: seq<Field>)
    ensures |ScannedFields(fields)| == |RenderFields(fields)|
    decreases |fields|
  {
    if fields != [] {
      ScannedFieldsLength(fields[1..]);
    }
  }

  /** A value without white space at either end. */
  predicate Clean(value: seq<char>) {
    value == [] || (!IsSpace(value[0]) && !IsSpace(value[|value| - 1]))
  }

  /** What stands behind the colon and one space. */
  function BareValue(f: Field): seq<char> {
    if f.value == [] then [] else f.value[1..]
  }

  /** One space and a clean value behind the colon. */
  predicate WellSent(f: Field) {
    f == Sent(f.key, BareValue(f)) && Clean(BareValue(f))
  }

  predicate IsLastOfItsName(fields: seq<Field>, k: nat)
    requires k < |fields|
  {
    forall j | k < j < |fields| :: fields[j].key != fields[k].key
  }

  /** Round trip: a request whose header lines are well sent comes back as it was sent. */
  lemma RequestRoundTrip(m: Message, body: seq<char>)
    requires m.Ok() && m.Accepted() && forall k | 0 <= k < |m.fields| :: WellSent(m.fields[k])
    ensures Fresh(m.Text() + body).Scanned()
    ensures var (result, c) := Parse(Fresh(m.Text() + body));
            && result == Returns(GET_REQUEST) && c.checked <= |c.buf| && c.buf[c.checked..] == body
            && c.request.method_ == m.method_ && c.request.path == m.path && c.request.query == m.query
            && c.request.version == m.version && c.request.code == GET_REQUEST
            && (forall k | 0 <= k < |m.fields| && IsLastOfItsName(m.fields, k) ::
                  && m.fields[k].key in c.request.headers
                  && c.request.headers[m.fields[k].key] == BareValue(m.fields[k]))
            && (forall key | key in c.request.headers :: exists k :: 0 <= k < |m.fields| && m.fields[k].key == key)
  {
    hide m.FirstLine, m.Accepted, RenderFields, Parse, TrimLeft, FieldMap, Clean;
    TextAndBody(m.FirstLine(), RenderFields(m.fields), body);
    SectionStep(m, [], body);
    forall k | 0 <= k < |m.fields|
      ensures m.fields[k].Taken() == BareValue(m.fields[k]) && !Stuck(m.fields[k].Taken())
    {
      assert WellSent(m.fields[k]);
      SentIsTaken(m.fields[k].key, BareValue(m.fields[k]));
    }
    var headers := FieldMap(m.fields, map[]);
    forall k | 0 <= k < |m.fields| && IsLastOfItsName(m.fields, k)
      ensures m.fields[k].key in headers && headers[m.fields[k].key] == BareValue(m.fields[k])
    {
      LastFieldWins(m.fields, map[], m.fields[k].key, k);
    }
    forall key | key in headers
      ensures exists k :: 0 <= k < |m.fields| && m.fields[k].key == key
    {
      if forall k | 0 <= k < |m.fields| :: m.fields[k].key != key {
        LastFieldWins(m.fields, map[], key, -1);
      }
    }
  }

  lemma SentIsTaken(key: seq<char>, value: seq<char>)
    requires Clean(value)
    ensures Sent(key, value).Taken() == value && !Stuck(value)
  {
    TrimSpace(value);
  }
}
