/** What src/HttpConn.cc's two-level state machine computes, as functions of the
    characters received so far. Pointers into readBuf are positions. */
module HttpConnSpec {
  import opened Lines
  import opened CStrings

  datatype Phase = RequestLine | Headers | Content

  /** What processRead came to: it wants more input, it rejected the request line,
      it is about to call doRequest, or it is about to read a body. */
  datatype Outcome = NoRequest | BadRequest | DoRequest | BodyFollows

  datatype Conn = Conn(
    buf: seq<char>,           // readBuf up to readIdx
    checked: nat,             // checkedIdx
    start: nat,               // startLine
    phase: Phase,
    url: Option<nat>,
    version: Option<nat>,
    host: Option<nat>,
    contentLength: int,
    linger: bool)
  {
    ghost predicate Wf() {
      start <= checked <= |buf|
    }
  }

  /** init() */
  const Init := Conn([], 0, 0, RequestLine, None, None, None, 0, false)

  /** read(): the received characters go behind those already there. */
  function Receive(c: Conn, chunk: seq<char>): Conn {
    c.(buf := c.buf + chunk)
  }

  /** parseRequestLine on the line `text`. The blanks it splits at become NULs; url
      and version are positions in the line. */
  datatype Split = Split(ok: bool, text: seq<char>, url: Option<nat>, setsVersion: bool, version: Option<nat>)

  function SplitRequestLine(text: seq<char>): (r: Split)
    ensures |r.text| == |text|
  {
    match FirstBlank(text, 0)
    case None => Split(false, text, None, false, None)
    case Some(u) =>
      var t1 := text[u := NUL];
      if !SameIgnoringCase(CStr(t1), "get") then Split(false, t1, Some(u + 1), false, None)
      else SplitTarget(t1, SkipBlanks(t1, u + 1))
  }

  /** The part behind the method: the target ends at the next blank. */
  function SplitTarget(text: seq<char>, url: nat): (r: Split)
    requires url <= |text|
    ensures |r.text| == |text| && r.setsVersion
  {
    match FirstBlank(text, url)
    case None => Split(false, text, Some(url), true, None)
    case Some(v) => JudgeRequest(text[v := NUL], url, SkipBlanks(text[v := NUL], v + 1))
  }

  /** The tests on version and target, once the line has been cut into words. */
  function JudgeRequest(text: seq<char>, url: nat, version: nat): (r: Split)
    requires url <= |text| && version <= |text|
    ensures r.text == text && r.setsVersion && r.version == Some(version)
  {
    if !SameIgnoringCase(CStr(text[version..]), "http/1.1") then Split(false, text, Some(url), true, Some(version))
    else
      var path := if StartsIgnoringCase(CStr(text[url..]), "http://") then FirstChar(text, url + 7, '/') else Some(url);
      Split(path.Some? && path.value < |text| && text[path.value] == '/', text, path, true, Some(version))
  }

  function Overlay(buf: seq<char>, at: nat, text: seq<char>): (r: seq<char>)
    requires at + |text| <= |buf|
    ensures |r| == |buf|
  {
    buf[..at] + text + buf[at + |text|..]
  }

  function Shift(p: Option<nat>, base: nat): Option<nat> {
    match p case None => None case Some(v) => Some(base + v)
  }

  function TakeRequestLine(c: Conn, at: nat, text: seq<char>): (r: (Outcome, Conn))
    requires at + |text| <= |c.buf|
    ensures |r.1.buf| == |c.buf| && r.1.checked == c.checked && r.1.start == c.start
  {
    var s := SplitRequestLine(text);
    var c' := c.(buf := Overlay(c.buf, at, s.text), url := Shift(s.url, at),
                 version := if s.setsVersion then Shift(s.version, at) else c.version);
    if s.ok then (NoRequest, c'.(phase := Headers)) else (BadRequest, c')
  }

  /** What parseHeaders takes from a header line: keep-alive asked for, the content
      length it gives, where the host starts in it. */
  datatype HeaderInfo = HeaderInfo(keepAlive: bool, length: Option<int>, hostSkip: Option<nat>)

  function InfoOf(text: seq<char>): (i: HeaderInfo) {
    if StartsIgnoringCase(text, "connection:") then
      HeaderInfo(SameIgnoringCase(text[SkipBlanks(text, 11)..], "keep-alive"), None, None)
    else if StartsIgnoringCase(text, "content-length:") then
      HeaderInfo(false, Some(AtolToInt(text[SkipBlanks(text, 15)..])), None)
    else if StartsIgnoringCase(text, "host:") then
      HeaderInfo(false, None, Some(SkipBlanks(text, 5)))
    else
      HeaderInfo(false, None, None)
  }

  /** Recording it for a line that starts at `at`. */
  function Note(c: Conn, at: nat, i: HeaderInfo): Conn {
    c.(linger := c.linger || i.keepAlive,
       contentLength := if i.length.Some? then i.length.value else c.contentLength,
       host := if i.hostSkip.Some? then Some(at + i.hostSkip.value) else c.host)
  }

  /** parseHeaders. A header line changes no characters. */
  function TakeHeader(c: Conn, at: nat, text: seq<char>): (r: (Outcome, Conn))
    ensures r.1.buf == c.buf && r.1.checked == c.checked && r.1.start == c.start
  {
    if text != [] then (NoRequest, Note(c, at, InfoOf(text)))
    else if c.contentLength != 0 then (BodyFollows, c.(phase := Content))
    else (DoRequest, c)
  }

  /** The connection after parseLine found a line, which starts where c did. */
  function AtNextLine(c: Conn, scan: Scan): Conn {
    c.(buf := scan.buf, checked := scan.at, start := scan.at)
  }

  function TakeLine(c: Conn, at: nat): (Outcome, Conn)
    requires at <= |c.buf| && c.phase != Content
  {
    var text := CStr(c.buf[at..]);
    if c.phase == RequestLine then TakeRequestLine(c, at, text) else TakeHeader(c, at, text)
  }

  /** processRead, up to the point where it would read a body. */
  function Process(c: Conn): (r: (Outcome, Conn))
    requires c.Wf()
    ensures r.1.Wf() && |r.1.buf| == |c.buf|
    decreases |c.buf| - c.checked
  {
    if c.phase == Content then (BodyFollows, c)
    else
      var scan := ScanLine(c.buf, c.checked);
      if scan.status != LineOk then (NoRequest, c.(buf := scan.buf, checked := scan.at))
      else
        var (outcome, c') := TakeLine(AtNextLine(c, scan), c.start);
        if outcome == NoRequest then Process(c') else (outcome, c')
  }

  /** Feeding chunks, with one processRead after each, until it stops wanting more. */
  function Feed(c: Conn, chunks: seq<seq<char>>): (Outcome, Conn)
    requires c.Wf()
    decreases |chunks|
  {
    if chunks == [] then (NoRequest, c)
    else
      var (outcome, c') := Process(Receive(c, chunks[0]));
      if outcome == NoRequest then Feed(c', chunks[1..]) else (outcome, c')
  }

  function Join(chunks: seq<seq<char>>): seq<char> {
    if chunks == [] then [] else chunks[0] + Join(chunks[1..])
  }

  // ---------- chunk independence ----------

  lemma RequestLineIgnoresRest(c: Conn, at: nat, text: seq<char>, more: seq<char>)
    requires at + |text| <= |c.buf|
    ensures TakeRequestLine(Receive(c, more), at, text)
         == (TakeRequestLine(c, at, text).0, Receive(TakeRequestLine(c, at, text).1, more))
  {
    var s := SplitRequestLine(text);
    assert Overlay(c.buf + more, at, s.text) == Overlay(c.buf, at, s.text) + more;
  }

  lemma HeaderIgnoresRest(c: Conn, at: nat, text: seq<char>, more: seq<char>)
    ensures TakeHeader(Receive(c, more), at, text)
         == (TakeHeader(c, at, text).0, Receive(TakeHeader(c, at, text).1, more))
  {
  }

  /** A line that has been read is terminated inside the buffer, so what follows it
      cannot matter. */
  lemma TakeLineIgnoresRest(c: Conn, at: nat, more: seq<char>)
    requires at <= |c.buf| && c.phase != Content
    requires |CStr(c.buf[at..])| < |c.buf| - at
    ensures TakeLine(Receive(c, more), at) == (TakeLine(c, at).0, Receive(TakeLine(c, at).1, more))
  {
    assert (c.buf + more)[at..] == c.buf[at..] + more;
    CStrIgnoresRest(c.buf[at..], more);
    var text := CStr(c.buf[at..]);
    if c.phase == RequestLine {
      RequestLineIgnoresRest(c, at, text, more);
    } else {
      HeaderIgnoresRest(c, at, text, more);
    }
  }

  /** No CR is left just before the position the scanner stands at. */
  ghost predicate Scanned(c: Conn) {
    c.Wf() && (c.checked > 0 ==> c.buf[c.checked - 1] != '\r')
  }

  lemma TakeLineKeepsScanned(c: Conn, at: nat)
    requires Scanned(c) && at <= |c.buf| && c.phase != Content
    requires at + |CStr(c.buf[at..])| < c.checked
    ensures Scanned(TakeLine(c, at).1)
  {
    if c.phase == RequestLine {
      var text := CStr(c.buf[at..]);
      var s := SplitRequestLine(text);
      assert Overlay(c.buf, at, s.text)[c.checked - 1] == c.buf[c.checked - 1];
    }
  }

  /** The state in which Process goes on to the next line. */
  lemma AfterLine(c: Conn)
    requires Scanned(c) && c.phase != Content && ScanLine(c.buf, c.checked).status == LineOk
    ensures var c1 := AtNextLine(c, ScanLine(c.buf, c.checked));
            Scanned(c1) && c.start + |CStr(c1.buf[c.start..])| < c1.checked && Scanned(TakeLine(c1, c.start).1)
  {
    var scan := ScanLine(c.buf, c.checked);
    ScanLineMeaning(c.buf, c.checked);
    var e := LineEnd(c.buf, c.checked);
    var c1 := AtNextLine(c, scan);
    assert scan.buf[e] == NUL;
    CStrStopsAt(c1.buf[c.start..], e - c.start);
    TakeLineKeepsScanned(c1, c.start);
  }

  /** processRead when no further line is complete. */
  lemma ProcessEnds(c: Conn)
    requires c.Wf() && c.phase != Content && ScanLine(c.buf, c.checked).status != LineOk
    ensures var scan := ScanLine(c.buf, c.checked);
            Process(c) == (NoRequest, c.(buf := scan.buf, checked := scan.at))
  {
  }

  /** One round of processRead's loop. */
  lemma ProcessLine(c: Conn)
    requires c.Wf() && c.phase != Content && ScanLine(c.buf, c.checked).status == LineOk
    ensures var (outcome, c') := TakeLine(AtNextLine(c, ScanLine(c.buf, c.checked)), c.start);
            Process(c) == if outcome == NoRequest then Process(c') else (outcome, c')
  {
  }

  /** The same round with more input behind the line. */
  lemma ProcessLineThenMore(c: Conn, more: seq<char>)
    requires Scanned(c) && c.phase != Content && ScanLine(c.buf, c.checked).status == LineOk
    ensures var (outcome, c') := TakeLine(AtNextLine(c, ScanLine(c.buf, c.checked)), c.start);
            && Scanned(c')
            && Process(Receive(c, more)) ==
               if outcome == NoRequest then Process(Receive(c', more)) else (outcome, Receive(c', more))
  {
    ScanLineResumes(c.buf, c.checked, more);
    AfterLine(c);
    var c1 := AtNextLine(c, ScanLine(c.buf, c.checked));
    TakeLineIgnoresRest(c1, c.start, more);
    assert AtNextLine(Receive(c, more), ScanLine(c.buf + more, c.checked)) == Receive(c1, more);
    ProcessLine(Receive(c, more));
  }

  /** The heart of chunk independence: more input behind a finished call changes
      nothing, and more input behind an unfinished call can be processed from where
      that call stopped. */
  lemma {:induction false} ProcessResumes(c: Conn, more: seq<char>)
    requires Scanned(c)
    ensures var (outcome, c') := Process(c);
            && Scanned(c')
            && (outcome != NoRequest ==> Process(Receive(c, more)) == (outcome, Receive(c', more)))
            && (outcome == NoRequest ==> Process(Receive(c, more)) == Process(Receive(c', more)))
    decreases |c.buf| - c.checked
  {
    if c.phase != Content {
      var scan := ScanLine(c.buf, c.checked);
      if scan.status == LineOk {
        ProcessLine(c);
        ProcessLineThenMore(c, more);
        var (outcome, c2) := TakeLine(AtNextLine(c, scan), c.start);
        if outcome == NoRequest {
          ProcessResumes(c2, more);
        }
      } else {
        ScanLineResumes(c.buf, c.checked, more);
        ScanLineMeaning(c.buf, c.checked);
        SameScanSameProcess(Receive(c, more), Receive(c.(buf := scan.buf, checked := scan.at), more));
      }
    }
  }

  /** Two connections that differ only in how far the current line was scanned go
      the same way if the scanner ends up in the same place. */
  lemma SameScanSameProcess(c: Conn, d: Conn)
    requires c.Wf() && d.Wf() && c.phase != Content
    requires d == c.(checked := d.checked)
    requires ScanLine(c.buf, c.checked) == ScanLine(d.buf, d.checked)
    ensures Process(c) == Process(d)
  {
    var scan := ScanLine(c.buf, c.checked);
    assert AtNextLine(c, scan) == AtNextLine(d, scan);
  }

  /** Everything processRead decides, and the characters up to checkedIdx, agree;
      the longer buffer may hold more unread characters. */
  ghost predicate Agrees(c: Conn, d: Conn) {
    c.buf <= d.buf && d == c.(buf := d.buf)
  }

  lemma ReceiveTwice(c: Conn, a: seq<char>, b: seq<char>)
    ensures Receive(Receive(c, a), b) == Receive(c, a + b)
  {
    assert (c.buf + a) + b == c.buf + (a + b);
  }

  lemma ReceiveNothing(c: Conn)
    ensures Receive(c, []) == c
  {
    assert c.buf + [] == c.buf;
  }

  lemma {:induction false} FeedIsOneCall(c: Conn, chunks: seq<seq<char>>)
    requires Scanned(c) && chunks != []
    ensures var whole := Process(Receive(c, Join(chunks)));
            Feed(c, chunks).0 == whole.0 && Agrees(Feed(c, chunks).1, whole.1)
    ensures Feed(c, chunks).0 == NoRequest ==> Feed(c, chunks) == Process(Receive(c, Join(chunks)))
    decreases |chunks|
  {
    var first, rest := chunks[0], Join(chunks[1..]);
    var c0 := Receive(c, first);
    var (outcome, c') := Process(c0);
    ProcessResumes(c0, rest);
    ReceiveTwice(c, first, rest);
    if outcome == NoRequest {
      if chunks[1..] == [] {
        ReceiveNothing(c');
        ReceiveNothing(c0);
      } else {
        FeedIsOneCall(c', chunks[1..]);
      }
    }
  }

  /** Feeding a request in any split, with processRead after each chunk until it
      stops, gives the same outcome, url, version, host, linger, content length,
      phase, line start and checkedIdx as one call on the whole input. */
  lemma ChunkIndependence(chunks: seq<seq<char>>)
    requires chunks != []
    ensures var split, whole := Feed(Init, chunks), Process(Receive(Init, Join(chunks)));
            && split.0 == whole.0
            && split.1.url == whole.1.url && split.1.version == whole.1.version && split.1.host == whole.1.host
            && split.1.linger == whole.1.linger && split.1.contentLength == whole.1.contentLength
            && split.1.phase == whole.1.phase && split.1.start == whole.1.start && split.1.checked == whole.1.checked
            && split.1.buf <= whole.1.buf
  {
    FeedIsOneCall(Init, chunks);
  }

  /** Two ways to split the same input cannot be told apart. */
  lemma SplitsAgree(chunks: seq<seq<char>>, others: seq<seq<char>>)
    requires chunks != [] && others != [] && Join(chunks) == Join(others)
    ensures Feed(Init, chunks).0 == Feed(Init, others).0
    ensures var c, d := Feed(Init, chunks).1, Feed(Init, others).1; d == c.(buf := d.buf)
    ensures Feed(Init, chunks).0 == NoRequest ==> Feed(Init, chunks) == Feed(Init, others)
  {
    FeedIsOneCall(Init, chunks);
    FeedIsOneCall(Init, others);
  }
}
