/** Which requests HttpConn accepts and what it takes from them, said about the text
    of the request rather than about the parser's states. */
module HttpConnMeaning {
  import opened Lines
  import opened CStrings
  import opened HttpConnSpec

  /** A line of the header section: its C string is not empty. */
  predicate HeaderLine(line: seq<char>) {
    NoLineEnd(line) && CStr(line) != []
  }

  /** The line that ends the section: it is empty or begins with a NUL. */
  predicate EndLine(line: seq<char>) {
    NoLineEnd(line) && CStr(line) == []
  }

  /** What the parser sees of each line. */
  function Strings(lines: seq<seq<char>>): (r: seq<seq<char>>)
    ensures |r| == |lines| && forall k | 0 <= k < |lines| :: r[k] == CStr(lines[k])
  {
    if lines == [] then [] else [CStr(lines[0])] + Strings(lines[1..])
  }

  function RenderLines(lines: seq<seq<char>>): seq<char> {
    if lines == [] then [] else lines[0] + "\r\n" + RenderLines(lines[1..])
  }

  /** The rendered lines once parseLine has overwritten their line ends. */
  function ScannedLines(lines: seq<seq<char>>): (r: seq<char>)
    ensures r != [] ==> r[|r| - 1] == NUL
  {
    if lines == [] then [] else lines[0] + [NUL, NUL] + ScannedLines(lines[1..])
  }

  /** The C string at position p of the buffer is s. */
  ghost predicate StringAt(buf: seq<char>, p: nat, s: seq<char>) {
    p <= |buf| && CStr(buf[p..]) == s
  }

  predicate NulFree(s: seq<char>) {
    forall k | 0 <= k < |s| :: s[k] != NUL
  }

  /** A NUL-free stretch followed by a NUL, from its i-th character on. */
  lemma StringInside(pre: seq<char>, s: seq<char>, tail: seq<char>, i: nat)
    requires NulFree(s) && i <= |s|
    ensures StringAt(pre + s + [NUL] + tail, |pre| + i, s[i..])
  {
    var t := (pre + s + [NUL] + tail)[|pre| + i..];
    var n := |s| - i;
    assert t == s[i..] + [NUL] + tail;
    assert forall k | 0 <= k < n :: t[k] == s[i + k];
    CStrIs(t, n);
  }

  /** What a line has behind its C string. */
  function Behind(line: seq<char>): (r: seq<char>)
    ensures line == CStr(line) + r && (r != [] ==> r[0] == NUL)
  {
    line[|CStr(line)|..]
  }

  lemma LineInside(pre: seq<char>, line: seq<char>, tail: seq<char>, i: nat)
    requires i <= |CStr(line)|
    ensures StringAt(pre + line + [NUL, NUL] + tail, |pre| + i, CStr(line)[i..])
  {
    var s, end := CStr(line), Behind(line) + [NUL, NUL] + tail;
    hide CStr, StringAt;
    StringInside(pre, s, end[1..], i);
    assert [NUL] + end[1..] == end;
    assert pre + s + [NUL] + end[1..] == pre + s + end;
    assert pre + line + [NUL, NUL] + tail == pre + s + end;
  }

  // ---------- the header section ----------

  /** The connection moved past what has been read, which is now `read`. */
  function MovedTo(c: Conn, read: seq<char>, rest: seq<char>): Conn {
    c.(buf := read + rest, checked := |read|, start := |read|)
  }

  /** processRead's step over one header line. */
  lemma OneHeaderLine(c: Conn, pre: seq<char>, line: seq<char>, rest: seq<char>)
    requires c.phase == Headers && c.start == c.checked == |pre| && c.buf == pre + line + "\r\n" + rest
    requires HeaderLine(line) && (pre != [] ==> pre[|pre| - 1] != '\r')
    ensures var d := MovedTo(Note(c, |pre|, InfoOf(CStr(line))), pre + line + [NUL, NUL], rest);
            d.Wf() && Process(c) == Process(d)
  {
    hide InfoOf, SplitRequestLine, ScanLine, CStr;
    ScanRenderedLine(pre, line, rest);
    var c1 := AtNextLine(c, ScanLine(c.buf, c.checked));
    LineInside(pre, line, rest, 0);
    assert CStr(line)[0..] == CStr(line);
    assert TakeLine(c1, |pre|) == (NoRequest, Note(c1, |pre|, InfoOf(CStr(line))));
    ProcessLine(c);
  }

  /** processRead's last step: the line that ends the section. */
  lemma EndStep(c: Conn, pre: seq<char>, end: seq<char>, rest: seq<char>)
    requires c.phase == Headers && c.start == c.checked == |pre| && c.buf == pre + end + "\r\n" + rest
    requires EndLine(end) && (pre != [] ==> pre[|pre| - 1] != '\r')
    ensures var d := MovedTo(c, pre + end + [NUL, NUL], rest);
            Process(c) == if c.contentLength != 0 then (BodyFollows, d.(phase := Content)) else (DoRequest, d)
  {
    hide InfoOf, SplitRequestLine, ScanLine, CStr;
    ScanRenderedLine(pre, end, rest);
    LineInside(pre, end, rest, 0);
    ProcessLine(c);
  }

  function Infos(lines: seq<seq<char>>): (r: seq<HeaderInfo>)
    ensures |r| == |lines|
    ensures forall k | 0 <= k < |lines| :: r[k] == InfoOf(CStr(lines[k]))
  {
    if lines == [] then [] else [InfoOf(CStr(lines[0]))] + Infos(lines[1..])
  }

  /** Recording a run of header lines, the first of which starts at `at`. */
  function NoteAll(c: Conn, at: nat, lines: seq<seq<char>>, infos: seq<HeaderInfo>): (d: Conn)
    requires |infos| == |lines|
    ensures d == c.(linger := d.linger, contentLength := d.contentLength, host := d.host)
    decreases |lines|
  {
    if lines == [] then c
    else NoteAll(Note(c, at, infos[0]), at + |lines[0]| + 2, lines[1..], infos[1..])
  }

  lemma {:induction false} NoteAllMoved(c: Conn, at: nat, lines: seq<seq<char>>, infos: seq<HeaderInfo>,
                                            read: seq<char>, rest: seq<char>)
    requires |infos| == |lines|
    ensures NoteAll(MovedTo(c, read, rest), at, lines, infos) == MovedTo(NoteAll(c, at, lines, infos), read, rest)
    decreases |lines|
  {
    if lines != [] {
      NoteAllMoved(Note(c, at, infos[0]), at + |lines[0]| + 2, lines[1..], infos[1..], read, rest);
    }
  }

  /** Where processRead stands when it has read the header lines and the line that ends them. */
  function HeaderEnd(c: Conn, pre: seq<char>, lines: seq<seq<char>>, end: seq<char>, rest: seq<char>)
      : (Outcome, Conn) {
    var d := MovedTo(NoteAll(c, |pre|, lines, Infos(lines)), pre + ScannedLines(lines) + end + [NUL, NUL], rest);
    if d.contentLength != 0 then (BodyFollows, d.(phase := Content)) else (DoRequest, d)
  }

  lemma HeaderEndStep(c: Conn, pre: seq<char>, lines: seq<seq<char>>, end: seq<char>, rest: seq<char>,
                          rest': seq<char>)
    requires lines != []
    ensures HeaderEnd(MovedTo(Note(c, |pre|, InfoOf(CStr(lines[0]))), pre + lines[0] + [NUL, NUL], rest'),
                      pre + lines[0] + [NUL, NUL], lines[1..], end, rest)
         == HeaderEnd(c, pre, lines, end, rest)
  {
    hide InfoOf, CStr;
    var line, later := lines[0], lines[1..];
    var pre' := pre + line + [NUL, NUL];
    assert Infos(lines)[1..] == Infos(later);
    NoteAllMoved(Note(c, |pre|, InfoOf(CStr(line))), |pre'|, later, Infos(later), pre', rest');
    Regroup(pre, line, [NUL, NUL], ScannedLines(later), end);
  }

  /** processRead over a whole header section. */
  lemma {:induction false} HeaderSection(c: Conn, pre: seq<char>, lines: seq<seq<char>>,
                                             end: seq<char>, rest: seq<char>)
    requires c.phase == Headers && c.start == c.checked == |pre|
    requires c.buf == pre + RenderLines(lines) + (end + "\r\n" + rest)
    requires pre != [] ==> pre[|pre| - 1] == NUL
    requires EndLine(end) && forall k | 0 <= k < |lines| :: HeaderLine(lines[k])
    ensures Process(c) == HeaderEnd(c, pre, lines, end, rest)
    decreases |lines|
  {
    hide TakeLine, InfoOf, NoteAll, CStr, Process;
    if lines == [] {
      assert c.buf == pre + end + "\r\n" + rest;
      EndStep(c, pre, end, rest);
      NoLines(c, pre, end, rest);
    } else {
      var line, later := lines[0], lines[1..];
      var tail := end + "\r\n" + rest;
      Regroup(pre, line, "\r\n", RenderLines(later), tail);
      OneHeaderLine(c, pre, line, RenderLines(later) + tail);
      var pre' := pre + line + [NUL, NUL];
      var d := MovedTo(Note(c, |pre|, InfoOf(CStr(line))), pre', RenderLines(later) + tail);
      Regroup(pre, line, [NUL, NUL], RenderLines(later), tail);
      HeaderSection(d, pre', later, end, rest);
      HeaderEndStep(c, pre, lines, end, rest, RenderLines(later) + tail);
    }
  }

  lemma NoLines(c: Conn, pre: seq<char>, end: seq<char>, rest: seq<char>)
    ensures var d := MovedTo(c, pre + end + [NUL, NUL], rest);
            HeaderEnd(c, pre, [], end, rest) ==
            if c.contentLength != 0 then (BodyFollows, d.(phase := Content)) else (DoRequest, d)
  {
    assert pre + ScannedLines([]) + end + [NUL, NUL] == pre + end + [NUL, NUL];
  }

  // ---------- what the header lines say ----------

  /** The start of line k when line 0 starts at `at`. */
  function LineStart(at: nat, lines: seq<seq<char>>, k: nat): nat
    requires k <= |lines|
    decreases k
  {
    if k == 0 then at else LineStart(at + |lines[0]| + 2, lines[1..], k - 1)
  }

  /** keep-alive is on when any line asks for it. */
  lemma {:induction false} LingerMeans(c: Conn, at: nat, lines: seq<seq<char>>, infos: seq<HeaderInfo>)
    requires |infos| == |lines|
    ensures NoteAll(c, at, lines, infos).linger <==> c.linger || exists k :: 0 <= k < |infos| && infos[k].keepAlive
    decreases |lines|
  {
    if lines != [] {
      LingerMeans(Note(c, at, infos[0]), at + |lines[0]| + 2, lines[1..], infos[1..]);
      assert forall k | 1 <= k < |infos| :: infos[k] == infos[1..][k - 1];
    }
  }

  /** The content length is that of the last line that gives one. */
  lemma {:induction false} LengthMeans(c: Conn, at: nat, lines: seq<seq<char>>, infos: seq<HeaderInfo>, last: int)
    requires |infos| == |lines| && -1 <= last < |infos|
    requires last >= 0 ==> infos[last].length.Some?
    requires forall k | last < k < |infos| :: infos[k].length.None?
    ensures NoteAll(c, at, lines, infos).contentLength ==
            if last >= 0 then infos[last].length.value else c.contentLength
    decreases |lines|
  {
    if lines != [] {
      LengthMeans(Note(c, at, infos[0]), at + |lines[0]| + 2, lines[1..], infos[1..],
                  if last >= 0 then last - 1 else -1);
    }
  }

  /** The host pointer is that of the last host line. */
  lemma {:induction false} HostMeans(c: Conn, at: nat, lines: seq<seq<char>>, infos: seq<HeaderInfo>, last: int)
    requires |infos| == |lines| && -1 <= last < |infos|
    requires last >= 0 ==> infos[last].hostSkip.Some?
    requires forall k | last < k < |infos| :: infos[k].hostSkip.None?
    ensures NoteAll(c, at, lines, infos).host ==
            if last >= 0 then Some(LineStart(at, lines, last) + infos[last].hostSkip.value) else c.host
    decreases |lines|
  {
    if lines != [] {
      HostMeans(Note(c, at, infos[0]), at + |lines[0]| + 2, lines[1..], infos[1..], if last >= 0 then last - 1 else -1);
    }
  }

  /** The string at a place inside line k of the header section. */
  lemma {:induction false} StringInLine(pre: seq<char>, lines: seq<seq<char>>, tail: seq<char>, k: nat, i: nat)
    requires k < |lines| && i <= |CStr(lines[k])|
    ensures StringAt(pre + ScannedLines(lines) + tail, LineStart(|pre|, lines, k) + i, CStr(lines[k])[i..])
    decreases k
  {
    hide CStr;
    var later := ScannedLines(lines[1..]);
    Regroup(pre, lines[0], [NUL, NUL], later, tail);
    if k == 0 {
      LineInside(pre, lines[0], later + tail, i);
    } else {
      StringInLine(pre + lines[0] + [NUL, NUL], lines[1..], tail, k - 1, i);
    }
  }

  /** The value of a header line whose name, with its colon, has n characters. */
  function Value(line: seq<char>, n: nat): seq<char>
    requires n <= |line|
  {
    line[SkipBlanks(line, n)..]
  }

  predicate Named(line: seq<char>, name: seq<char>) {
    StartsIgnoringCase(line, name)
  }

  /** What is taken from a line depends only on its name; the names exclude each
      other, so the order of the tests does not matter. */
  lemma InfoMeans(line: seq<char>)
    ensures var i := InfoOf(line);
            && (i.keepAlive <==> Named(line, "connection:") && SameIgnoringCase(Value(line, 11), "keep-alive"))
            && (i.length.Some? <==> Named(line, "content-length:"))
            && (i.length.Some? ==> i.length.value == AtolToInt(Value(line, 15)))
            && (i.hostSkip.Some? <==> Named(line, "host:"))
            && (i.hostSkip.Some? ==> i.hostSkip.value <= |line| && line[i.hostSkip.value..] == Value(line, 5))
  {
    IgnoringCaseMeans(line, "connection:");
    IgnoringCaseMeans(line, "content-length:");
    IgnoringCaseMeans(line, "host:");
    assert "connection:"[3] == 'n' && "content-length:"[3] == 't';
    assert "connection:"[0] == 'c' && "content-length:"[0] == 'c' && "host:"[0] == 'h';
  }

  // ---------- the request line ----------

  predicate Word(s: seq<char>) {
    forall k | 0 <= k < |s| :: s[k] != NUL && !IsBlank(s[k])
  }

  predicate Blanks(s: seq<char>) {
    s != [] && forall k | 0 <= k < |s| :: IsBlank(s[k])
  }

  /** Where the path starts in a request target: at the first slash after the host
      when the target starts with http://, otherwise at the front. */
  function PathStart(target: seq<char>): Option<nat> {
    if StartsIgnoringCase(target, "http://") then FirstChar(target, 7, '/') else Some(0)
  }

  /** The target has a path and the path starts with a slash. */
  predicate HasPath(target: seq<char>) {
    PathStart(target).Some? && PathStart(target).value < |target| && target[PathStart(target).value] == '/'
  }

  lemma {:induction false} FirstBlankAt(s: seq<char>, i: nat, m: nat)
    requires i <= m < |s| && IsBlank(s[m]) && forall k | i <= k < m :: s[k] != NUL && !IsBlank(s[k])
    ensures FirstBlank(s, i) == Some(m)
    decreases m - i
  {
    if i < m {
      FirstBlankAt(s, i + 1, m);
    }
  }

  lemma {:induction false} SkipBlanksTo(s: seq<char>, i: nat, m: nat)
    requires i <= m <= |s| && (m < |s| ==> !IsBlank(s[m])) && forall k | i <= k < m :: IsBlank(s[k])
    ensures SkipBlanks(s, i) == m
    decreases m - i
  {
    if i < m {
      SkipBlanksTo(s, i + 1, m);
    }
  }

  /** A search for a slash inside a word looks no further than the word. */
  lemma {:induction false} FirstCharInside(pre: seq<char>, s: seq<char>, tail: seq<char>, i: nat)
    requires NulFree(s) && i <= |s|
    ensures FirstChar(pre + s + [NUL] + tail, |pre| + i, '/') == Shift(FirstChar(s, i, '/'), |pre|)
    decreases |s| - i
  {
    var t := pre + s + [NUL] + tail;
    if i < |s| {
      assert t[|pre| + i] == s[i];
      FirstCharInside(pre, s, tail, i + 1);
    } else {
      assert t[|pre| + i] == NUL;
    }
  }

  /** strpbrk from the start of a word finds the blank behind it. */
  lemma BlankAfterWord(pre: seq<char>, w: seq<char>, g: seq<char>, tail: seq<char>)
    requires Word(w) && Blanks(g)
    ensures FirstBlank(pre + w + g + tail, |pre|) == Some(|pre| + |w|)
  {
    var s := pre + w + g + tail;
    var m := |pre| + |w|;
    assert s[m] == g[0];
    forall k | |pre| <= k < m
      ensures s[k] != NUL && !IsBlank(s[k])
    {
      assert s[k] == w[k - |pre|];
    }
    FirstBlankAt(s, |pre|, m);
  }

  /** Overwriting that blank. */
  lemma CutAfterWord(pre: seq<char>, w: seq<char>, g: seq<char>, tail: seq<char>)
    requires g != []
    ensures (pre + w + g + tail)[|pre| + |w| := NUL] == pre + w + [NUL] + (g[1..] + tail)
  {
  }

  lemma SkipOver(pre: seq<char>, blanks: seq<char>, tail: seq<char>)
    requires (forall k | 0 <= k < |blanks| :: IsBlank(blanks[k])) && (tail != [] ==> !IsBlank(tail[0]))
    ensures SkipBlanks(pre + blanks + tail, |pre|) == |pre| + |blanks|
  {
    var s := pre + blanks + tail;
    forall k | |pre| <= k < |pre| + |blanks|
      ensures IsBlank(s[k])
    {
      assert s[k] == blanks[k - |pre|];
    }
    if tail != [] {
      assert s[|pre| + |blanks|] == tail[0];
    }
    SkipBlanksTo(s, |pre|, |pre| + |blanks|);
  }

  /** strspn behind the overwritten blank stops at the next word. */
  lemma NextWord(pre: seq<char>, w: seq<char>, g: seq<char>, tail: seq<char>)
    requires Blanks(g) && (tail != [] ==> !IsBlank(tail[0]))
    ensures SkipBlanks(pre + w + [NUL] + (g[1..] + tail), |pre| + |w| + 1) == |pre| + |w| + |g|
  {
    SkipOver(pre + w + [NUL], g[1..], tail);
    Assoc(pre + w + [NUL], g[1..], tail);
  }

  /** The five parts of a request line. */
  datatype Parts = Parts(method_: seq<char>, gap1: seq<char>, target: seq<char>, gap2: seq<char>, version: seq<char>)
  {
    predicate Ok() {
      && Word(method_) && Blanks(gap1) && Word(target) && target != [] && Blanks(gap2)
      && NulFree(version) && (version != [] ==> !IsBlank(version[0]))
    }

    function Text(): seq<char> {
      [] + method_ + gap1 + Rest()
    }

    function Rest(): seq<char> {
      target + gap2 + version
    }

    /** What stands before the target once the method has been cut off. */
    function Head(): seq<char>
      requires gap1 != []
    {
      [] + method_ + [NUL] + gap1[1..]
    }

    /** The line with the first blank of each gap overwritten. */
    function Cut(): seq<char>
      requires gap1 != [] && gap2 != []
    {
      Head() + target + [NUL] + (gap2[1..] + version)
    }

    predicate Accepted() {
      SameIgnoringCase(method_, "get") && SameIgnoringCase(version, "http/1.1") && HasPath(target)
    }

    function UrlAt(): nat {
      |method_| + |gap1|
    }

    /** The path that was asked for, and where it stands in the line. */
    function Path(): seq<char>
      requires HasPath(target)
    {
      target[PathStart(target).value..]
    }

    function PathAt(): nat
      requires HasPath(target)
    {
      UrlAt() + PathStart(target).value
    }

    function VersionAt(): nat {
      UrlAt() + |target| + |gap2|
    }
  }

  /** The first cut: after the method. */
  lemma FirstCut(p: Parts)
    requires p.Ok()
    ensures FirstBlank(p.Text(), 0) == Some(|p.method_|)
    ensures var t1 := p.Text()[|p.method_| := NUL];
            t1 == p.Head() + p.target + p.gap2 + p.version && CStr(t1) == p.method_
            && SkipBlanks(t1, |p.method_| + 1) == p.UrlAt()
  {
    BlankAfterWord([], p.method_, p.gap1, p.Rest());
    CutAfterWord([], p.method_, p.gap1, p.Rest());
    NextWord([], p.method_, p.gap1, p.Rest());
    var t1 := p.Text()[|p.method_| := NUL];
    StringInside([], p.method_, p.gap1[1..] + p.Rest(), 0);
    assert t1[0..] == t1;
    Reassociate(p.method_, p.gap1[1..], p.target, p.gap2, p.version);
  }

  lemma Reassociate(m: seq<char>, g: seq<char>, t: seq<char>, h: seq<char>, v: seq<char>)
    ensures [] + m + [NUL] + (g + (t + h + v)) == ([] + m + [NUL] + g) + t + h + v
  {
  }

  /** The second cut: after the target. */
  lemma SecondCut(p: Parts)
    requires p.Ok()
    ensures var t1 := p.Head() + p.target + p.gap2 + p.version;
            var v := p.UrlAt() + |p.target|;
            && FirstBlank(t1, p.UrlAt()) == Some(v) && t1[v := NUL] == p.Cut()
            && SkipBlanks(p.Cut(), v + 1) == p.VersionAt()
  {
    BlankAfterWord(p.Head(), p.target, p.gap2, p.version);
    CutAfterWord(p.Head(), p.target, p.gap2, p.version);
    NextWord(p.Head(), p.target, p.gap2, p.version);
  }

  /** The three strings the cut line is made of. */
  lemma CutStrings(p: Parts)
    requires p.Ok()
    ensures StringAt(p.Cut(), p.UrlAt(), p.target)
    ensures StringAt(p.Cut(), p.VersionAt(), p.version)
  {
    hide StringAt;
    StringInside(p.Head(), p.target, p.gap2[1..] + p.version, 0);
    assert p.target[0..] == p.target;
    VersionBehind(p.Head() + p.target + [NUL], p.gap2[1..], p.version);
    Assoc(p.Head() + p.target + [NUL], p.gap2[1..], p.version);
  }

  lemma VersionBehind(pre: seq<char>, mid: seq<char>, v: seq<char>)
    requires NulFree(v)
    ensures StringAt(pre + mid + v, |pre| + |mid|, v)
  {
    assert (pre + mid + v)[|pre| + |mid|..] == v;
    CStrIs(v, |v|);
  }

  lemma CharInside(pre: seq<char>, s: seq<char>, tail: seq<char>, i: nat)
    requires i < |s|
    ensures (pre + s + tail)[|pre| + i] == s[i]
  {
  }

  /** The target's path, seen in the cut line. */
  lemma JudgeMeans(p: Parts)
    requires p.Ok()
    ensures var r := JudgeRequest(p.Cut(), p.UrlAt(), p.VersionAt());
            && (r.ok <==> SameIgnoringCase(p.version, "http/1.1") && HasPath(p.target))
            && (r.ok ==> r == Split(true, p.Cut(), Some(p.PathAt()), true, Some(p.VersionAt())))
  {
    hide CStr, StartsIgnoringCase, FirstChar;
    CutStrings(p);
    var tail := p.gap2[1..] + p.version;
    var path := PathStart(p.target);
    if StartsIgnoringCase(p.target, "http://") {
      FirstCharInside(p.Head(), p.target, tail, 7);
    }
    if path.Some? {
      Assoc(p.Head() + p.target, [NUL], tail);
      if path.value < |p.target| {
        CharInside(p.Head(), p.target, [NUL] + tail, path.value);
      }
    }
  }

  /** parseRequestLine accepts a line of three words exactly when the method is GET,
      the version is HTTP/1.1 and the target has a path; it then leaves url at the
      path and version at the version. */
  lemma SplitMeans(p: Parts)
    requires p.Ok()
    ensures var r := SplitRequestLine(p.Text());
            && (r.ok <==> p.Accepted())
            && (r.ok ==> r == Split(true, p.Cut(), Some(p.PathAt()), true, Some(p.VersionAt())))
  {
    hide JudgeRequest, FirstBlank, SkipBlanks, CStr, StartsIgnoringCase, HasPath, p.Cut, p.Head, p.Text;
    FirstCut(p);
    SecondCut(p);
    JudgeMeans(p);
  }

  // ---------- whole requests ----------

  /** The connection after an accepted request line, whose buffer has `behind` behind
      the string that was parsed, and `more` behind the line. */
  function AfterRequestLine(p: Parts, behind: seq<char>, more: seq<char>): Conn
    requires p.Ok() && p.Accepted()
  {
    MovedTo(Init, p.Cut() + behind + [NUL, NUL], more).(phase := Headers,
      url := Some(p.PathAt()), version := Some(p.VersionAt()))
  }

  /** The connection when the request line has been found but not yet parsed. */
  function FoundLine(text: seq<char>, more: seq<char>): Conn {
    MovedTo(Init, text + [NUL, NUL], more)
  }

  lemma FindRequestLine(text: seq<char>, more: seq<char>)
    requires NoLineEnd(text)
    ensures var c := Receive(Init, text + "\r\n" + more);
            && ScanLine(c.buf, 0).status == LineOk
            && AtNextLine(c, ScanLine(c.buf, 0)) == FoundLine(text, more)
            && CStr(FoundLine(text, more).buf[0..]) == CStr(text)
  {
    hide ScanLine, CStr;
    Leading(text, "\r\n", more);
    assert [] + (text + "\r\n" + more) == text + "\r\n" + more;
    Leading(text, [NUL, NUL], more);
    ScanRenderedLine([], text, more);
    LineInside([], text, more, 0);
    assert CStr(text)[0..] == CStr(text);
  }

  lemma TakeWholeRequestLine(p: Parts, behind: seq<char>, more: seq<char>)
    requires p.Ok()
    ensures var r := TakeRequestLine(FoundLine(p.Text() + behind, more), 0, p.Text());
            if p.Accepted() then r == (NoRequest, AfterRequestLine(p, behind, more)) else r.0 == BadRequest
  {
    hide SplitRequestLine, p.Text, p.Cut, p.Accepted, p.PathAt, p.VersionAt, HasPath, CStr;
    SplitMeans(p);
    CutLength(p);
    var tail := behind + [NUL, NUL] + more;
    assert p.Text() + behind + [NUL, NUL] + more == p.Text() + tail;
    assert p.Cut() + behind + [NUL, NUL] + more == p.Cut() + tail;
    OverlayFront(p.Cut(), p.Text(), tail);
  }

  lemma RequestLineStep(p: Parts, text: seq<char>, more: seq<char>)
    requires p.Ok() && NoLineEnd(text) && CStr(text) == p.Text()
    ensures var c := Receive(Init, text + "\r\n" + more);
            if p.Accepted()
            then AfterRequestLine(p, Behind(text), more).Wf()
                 && Process(c) == Process(AfterRequestLine(p, Behind(text), more))
            else Process(c).0 == BadRequest
  {
    hide ScanLine, TakeRequestLine, p.Text, p.Cut, p.Accepted, FoundLine, CStr, Behind;
    FindRequestLine(text, more);
    TakeWholeRequestLine(p, Behind(text), more);
    CutLength(p);
    FoundLength(text, more);
    ProcessLine(Receive(Init, text + "\r\n" + more));
  }

  lemma FoundLength(text: seq<char>, more: seq<char>)
    ensures |FoundLine(text, more).buf| == |text| + 2 + |more|
  {
  }

  lemma CutLength(p: Parts)
    requires p.Ok()
    ensures |p.Cut()| == |p.Text()|
  {
  }

  lemma OverlayFront(new_: seq<char>, old_: seq<char>, tail: seq<char>)
    requires |new_| == |old_|
    ensures Overlay(old_ + tail, 0, new_) == new_ + tail
  {
  }

  /** The index of the last header line of this name, or -1. */
  function LastNamed(lines: seq<seq<char>>, name: seq<char>): (r: int)
    ensures -1 <= r < |lines|
    ensures r >= 0 ==> Named(lines[r], name)
    ensures forall k | r < k < |lines| :: !Named(lines[k], name)
  {
    if lines == [] then -1
    else if Named(lines[|lines| - 1], name) then |lines| - 1
    else LastNamed(lines[..|lines| - 1], name)
  }

  /** The content length a header section announces. */
  function BodyLength(lines: seq<seq<char>>): int {
    var k := LastNamed(lines, "content-length:");
    if k < 0 then 0 else AtolToInt(Value(lines[k], 15))
  }

  predicate AsksKeepAlive(line: seq<char>) {
    Named(line, "connection:") && SameIgnoringCase(Value(line, 11), "keep-alive")
  }

  /** What was noted of line k, said about its string. */
  ghost predicate Noted(i: HeaderInfo, line: seq<char>) {
    && (i.keepAlive <==> AsksKeepAlive(line))
    && (i.length.Some? <==> Named(line, "content-length:"))
    && (i.length.Some? ==> i.length.value == AtolToInt(Value(line, 15)))
    && (i.hostSkip.Some? <==> Named(line, "host:"))
    && (i.hostSkip.Some? ==> i.hostSkip.value <= |line| && line[i.hostSkip.value..] == Value(line, 5))
  }

  lemma InfosMean(lines: seq<seq<char>>)
    ensures forall k | 0 <= k < |lines| :: Noted(Infos(lines)[k], Strings(lines)[k])
  {
    hide InfoOf, AtolToInt, StartsIgnoringCase, SkipBlanks, CStr;
    forall k | 0 <= k < |lines|
      ensures Noted(Infos(lines)[k], Strings(lines)[k])
    {
      InfoMeans(CStr(lines[k]));
    }
  }

  /** What was taken from the header lines of an accepted request. */
  ghost predicate HeadersTaken(c: Conn, lines: seq<seq<char>>) {
    var h := LastNamed(lines, "host:");
    && (c.linger <==> exists k :: 0 <= k < |lines| && AsksKeepAlive(lines[k]))
    && c.contentLength == BodyLength(lines)
    && (if h < 0 then c.host.None? else c.host.Some? && StringAt(c.buf, c.host.value, Value(lines[h], 5)))
  }

  lemma LingerNoted(c: Conn, at: nat, lines: seq<seq<char>>)
    requires !c.linger
    ensures NoteAll(c, at, lines, Infos(lines)).linger <==>
            exists k :: 0 <= k < |lines| && AsksKeepAlive(Strings(lines)[k])
  {
    hide InfoOf, NoteAll, AsksKeepAlive, Named, Value;
    var infos := Infos(lines);
    InfosMean(lines);
    LingerMeans(c, at, lines, infos);
    if k :| 0 <= k < |lines| && AsksKeepAlive(Strings(lines)[k]) {
      assert Noted(infos[k], Strings(lines)[k]);
    }
    if k :| 0 <= k < |lines| && infos[k].keepAlive {
      assert Noted(infos[k], Strings(lines)[k]);
    }
  }

  lemma LengthNoted(c: Conn, at: nat, lines: seq<seq<char>>)
    requires c.contentLength == 0
    ensures NoteAll(c, at, lines, Infos(lines)).contentLength == BodyLength(Strings(lines))
  {
    hide InfoOf, NoteAll, AtolToInt, Named, AsksKeepAlive;
    InfosMean(lines);
    var last := LastNamed(Strings(lines), "content-length:");
    hide LastNamed;
    LengthMeans(c, at, lines, Infos(lines), last);
  }

  lemma HostNoted(c: Conn, pre: seq<char>, lines: seq<seq<char>>, tail: seq<char>)
    requires c.host.None?
    ensures var host, strings := NoteAll(c, |pre|, lines, Infos(lines)).host, Strings(lines);
            var h := LastNamed(strings, "host:");
            if h < 0 then host.None?
            else host.Some? && StringAt(pre + ScannedLines(lines) + tail, host.value, Value(strings[h], 5))
  {
    hide InfoOf, NoteAll, StringAt, Named, ScannedLines, LineStart, SkipBlanks, AtolToInt, AsksKeepAlive;
    hide LastNamed, CStr;
    InfosMean(lines);
    var h := LastNamed(Strings(lines), "host:");
    HostMeans(c, |pre|, lines, Infos(lines), h);
    if h >= 0 {
      assert Noted(Infos(lines)[h], Strings(lines)[h]);
      StringInLine(pre, lines, tail, h, Infos(lines)[h].hostSkip.value);
    }
  }

  /** What doRequest finds in the connection. */
  ghost predicate Taken(c: Conn, p: Parts, lines: seq<seq<char>>, rest: seq<char>) {
    && HasPath(p.target)
    && c.url.Some? && StringAt(c.buf, c.url.value, p.Path())
    && c.version.Some? && StringAt(c.buf, c.version.value, p.version)
    && HeadersTaken(c, lines)
    && c.checked <= |c.buf| && c.buf[c.checked..] == rest
  }

  /** A complete request of three words and any header lines: it is rejected exactly
      when the request line is not an HTTP/1.1 GET of a path; otherwise doRequest is
      reached unless a body is announced, url and version are the path and version
      sent, the host is that of the last Host line, keep-alive is on exactly when a
      Connection line asked for it, and what follows the request is untouched. */
  lemma RequestMeans(p: Parts, text: seq<char>, lines: seq<seq<char>>, end: seq<char>, rest: seq<char>)
    requires p.Ok() && NoLineEnd(text) && CStr(text) == p.Text()
    requires EndLine(end) && forall k | 0 <= k < |lines| :: HeaderLine(lines[k])
    ensures var request := text + "\r\n" + (RenderLines(lines) + (end + "\r\n" + rest));
            var (outcome, c) := Process(Receive(Init, request));
            && (outcome == BadRequest <==> !p.Accepted())
            && (p.Accepted() ==>
                  && Taken(c, p, Strings(lines), rest)
                  && outcome == if BodyLength(Strings(lines)) == 0 then DoRequest else BodyFollows)
  {
    hide p.Text, TakeLine, BodyLength, Taken, AfterRequestLine, HeaderEnd, RenderLines, CStr, HeaderLine, EndLine;
    RequestLineStep(p, text, RenderLines(lines) + (end + "\r\n" + rest));
    if p.Accepted() {
      AcceptedMeans(p, Behind(text), lines, end, rest);
    }
  }

  /** Where the header section leaves a connection that had taken nothing yet. */
  lemma HeaderEndMeans(d: Conn, pre: seq<char>, lines: seq<seq<char>>, end: seq<char>, rest: seq<char>)
    requires !d.linger && d.contentLength == 0 && d.host.None?
    ensures var (outcome, c) := HeaderEnd(d, pre, lines, end, rest);
            && outcome == (if BodyLength(Strings(lines)) == 0 then DoRequest else BodyFollows)
            && HeadersTaken(c, Strings(lines))
            && c.url == d.url && c.version == d.version
            && c.checked <= |c.buf| && c.buf[c.checked..] == rest
            && c.buf == pre + (ScannedLines(lines) + end + [NUL, NUL] + rest)
  {
    hide CStr, Infos, NoteAll, ScannedLines, BodyLength, LastNamed, Value, AsksKeepAlive, StringAt, Strings;
    var scanned := ScannedLines(lines);
    var behind := end + [NUL, NUL];
    FrontOf(pre, scanned, behind, rest);
    Assoc(pre + scanned, end, [NUL, NUL]);
    Assoc(scanned, end, [NUL, NUL]);
    LingerNoted(d, |pre|, lines);
    LengthNoted(d, |pre|, lines);
    Assoc(pre + scanned, behind, rest);
    HostNoted(d, pre, lines, behind + rest);
  }

  lemma AcceptedMeans(p: Parts, behind: seq<char>, lines: seq<seq<char>>, end: seq<char>, rest: seq<char>)
    requires p.Ok() && p.Accepted() && (behind != [] ==> behind[0] == NUL)
    requires EndLine(end) && forall k | 0 <= k < |lines| :: HeaderLine(lines[k])
    ensures var (outcome, c) := Process(AfterRequestLine(p, behind, RenderLines(lines) + (end + "\r\n" + rest)));
            && Taken(c, p, Strings(lines), rest)
            && outcome == if BodyLength(Strings(lines)) == 0 then DoRequest else BodyFollows
  {
    hide HeaderEnd, StringAt, HasPath, p.Path, p.PathAt, p.VersionAt, p.Cut, HeaderLine, EndLine;
    hide ScannedLines, RenderLines, BodyLength, HeadersTaken, Process, Strings;
    var pre := p.Cut() + behind + [NUL, NUL];
    var d := AfterRequestLine(p, behind, RenderLines(lines) + (end + "\r\n" + rest));
    Assoc(pre, RenderLines(lines), end + "\r\n" + rest);
    HeaderSection(d, pre, lines, end, rest);
    HeaderEndMeans(d, pre, lines, end, rest);
    RequestStrings(p, behind, ScannedLines(lines) + end + [NUL, NUL] + rest);
  }

  lemma FrontOf(pre: seq<char>, a: seq<char>, b: seq<char>, rest: seq<char>)
    ensures pre + a + b + rest == pre + (a + b + rest)
    ensures (pre + a + b + rest)[|pre + a + b|..] == rest
  {
  }

  /** Path and version are strings of their own in the buffer, whatever follows. */
  lemma RequestStrings(p: Parts, behind: seq<char>, tail: seq<char>)
    requires p.Ok() && p.Accepted() && (behind != [] ==> behind[0] == NUL)
    ensures StringAt(p.Cut() + behind + [NUL, NUL] + tail, p.PathAt(), p.Path())
    ensures StringAt(p.Cut() + behind + [NUL, NUL] + tail, p.VersionAt(), p.version)
  {
    hide StringAt, p.Cut, p.Path, p.PathAt, p.VersionAt, p.Accepted;
    var end := behind + [NUL, NUL] + tail;
    PathString(p, end);
    VersionString(p, end[1..]);
    assert p.Cut() + behind + [NUL, NUL] + tail == p.Cut() + end;
    assert [NUL] + end[1..] == end;
    Assoc(p.Cut(), [NUL], end[1..]);
  }

  lemma PathString(p: Parts, end: seq<char>)
    requires p.Ok() && p.Accepted()
    ensures StringAt(p.Cut() + end, p.PathAt(), p.Path())
  {
    hide StringAt, PathStart;
    var mid := p.gap2[1..] + p.version;
    Assoc(p.Head() + p.target + [NUL], mid, end);
    StringInside(p.Head(), p.target, mid + end, PathStart(p.target).value);
  }

  lemma VersionString(p: Parts, end: seq<char>)
    requires p.Ok()
    ensures StringAt(p.Cut() + [NUL] + end, p.VersionAt(), p.version)
  {
    hide StringAt;
    Assoc(p.Head() + p.target + [NUL], p.gap2[1..], p.version);
    StringInside(p.Head() + p.target + [NUL] + p.gap2[1..], p.version, end, 0);
    assert p.version[0..] == p.version;
  }
}
