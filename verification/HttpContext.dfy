/** The HttpRequest and HttpContext classes: fields set step by step and the buffer
    parsed in place, proved to compute what HttpContextSpec says. */
module HttpContexts {
  import opened Lines
  import opened CStrings
  import opened HttpContextSpec

  class HttpRequest {
    var requestCode: HttpCode
    var method_: seq<char>
    var path: seq<char>
    var query: seq<char>
    var version: seq<char>
    var headers: map<seq<char>, seq<char>>

    ghost function View(): Request
      reads this
    {
      Request(requestCode, method_, path, query, version, headers)
    }

    constructor ()
      ensures View() == Blank
    {
      requestCode, method_, path, query, version, headers := NO_REQUEST, [], [], [], [], map[];
    }

    method SetMethod(s: seq<char>) returns (ok: bool)
      modifies this`method_
      ensures method_ == s && ok == (s != [])
    {
      method_ := s;
      ok := method_ != [];
    }

    /** addHeader on a line of n characters at `text` with its colon at offset
        `colon`. It skips white space behind the colon without looking at the end of
        the line, and stays inside because parseLine left a NUL there. False means
        that the loop that should trim the value never ends. */
    method AddHeader(buf: array<char>, text: nat, colon: nat, n: nat) returns (returns_: bool)
      requires colon < n && text + n < buf.Length && buf[text + n] == NUL
      modifies this`headers
      ensures var line := buf[text..text + n];
              var value := TrimLeft(line[colon + 1..]);
              && returns_ == !Stuck(value)
              && headers == if returns_ then old(headers)[line[..colon] := value] else old(headers)
    {
      hide TrimLeft, Stuck;
      var key := buf[text..text + colon];
      var c := SkipSpace(buf, text + colon + 1, text + n);
      var value := buf[c..text + n];
      SlicesOfLine(buf[..], text, colon, n);
      returns_ := !Stuck(value);
      if returns_ {
        headers := headers[key := value];
      }
    }

    /** while (isspace(*c)) ++c; */
    static method SkipSpace(buf: array<char>, from: nat, end: nat) returns (c: nat)
      requires from <= end < buf.Length && buf[end] == NUL
      ensures from <= c <= end && buf[c..end] == TrimLeft(buf[from..end])
    {
      hide TrimLeft, IsSpace;
      ghost var s := buf[..end];
      c := from;
      SpaceIsNotNul();
      while IsSpace(buf[c])
        invariant from <= c <= end
        invariant TrimLeft(s[c..]) == TrimLeft(s[from..])
        decreases end - c
      {
        TrimOne(s, c);
        c := c + 1;
      }
      TrimNone(s, c);
      assert buf[from..end] == s[from..] && buf[c..end] == s[c..];
    }

    method Reset()
      modifies this
      ensures View() == Blank
    {
      requestCode, method_, path, query, version, headers := NO_REQUEST, [], [], [], [], map[];
    }
  }

  class HttpContext {
    var buf: array<char>
    var readIdx: nat
    var checkedIdx: nat
    var startLine: nat
    var checkState: CheckState
    const request: HttpRequest

    ghost predicate Valid()
      reads this, buf
    {
      && startLine <= checkedIdx <= readIdx <= buf.Length
      && (checkedIdx > 0 ==> buf[checkedIdx - 1] != '\r')
    }

    ghost function View(): Context
      reads this, buf, request
      requires readIdx <= buf.Length
    {
      Context(buf[..readIdx], checkedIdx, startLine, checkState, request.View())
    }

    constructor (buf: array<char>)
      ensures Valid() && this.buf == buf && readIdx == 0 && fresh(request) && View() == Fresh([])
    {
      this.buf, readIdx, checkedIdx, startLine, checkState := buf, 0, 0, 0, RequestLine;
      request := new HttpRequest();
    }

    /** setBuffer: the caller's buffer and how much of it is filled. */
    method SetBuffer(b: array<char>, s: nat)
      requires s <= b.Length && checkedIdx == 0 && startLine == 0 && readIdx <= buf.Length
      modifies this`buf, this`readIdx
      ensures Valid() && buf == b && View() == old(View()).(buf := b[..s])
    {
      buf, readIdx := b, s;
    }

    /** parseRequestLine(text, len) */
    method ParseRequestLine(text: nat, len: nat) returns (ok: bool)
      requires text + len <= buf.Length
      modifies this`checkState, request
      ensures (ok, request.View()) == TakeRequestLine(old(request.View()), buf[text..text + len])
      ensures checkState == if ok then Header else old(checkState)
    {
      hide Find, SetTarget, IsVersion;
      var line := buf[text..text + len];
      var space := Find(line, 0, ' ');
      if space == len {
        return false;
      }
      var named := request.SetMethod(line[..space]);
      if !named {
        return false;
      }
      var begin := space + 1;
      space := Find(line, begin, ' ');
      if space == len {
        return false;
      }
      ParseTarget(line[begin..space]);
      ok := IsVersion(line[space + 1..]);
      if ok {
        request.version := line[space + 1..];
        checkState := Header;
      }
    }

    method ParseTarget(target: seq<char>)
      modifies request`path, request`query
      ensures request.View() == SetTarget(old(request.View()), target)
    {
      var question := Find(target, 0, '?');
      if question != |target| {
        request.path := target[..question];
        request.query := target[question..];
      } else {
        request.path := target;
      }
    }

    /** parseHeader(text, len): a line without a colon ends the header section. */
    method ParseHeader(text: nat, len: nat) returns (returns_: bool)
      requires text + len < buf.Length && buf[text + len] == NUL && checkState == Header
      modifies this`checkState, request
      ensures var r := TakeHeader(old(request.View()), buf[text..text + len]);
              && (returns_ <==> r.Some?)
              && (returns_ ==> r.value == (checkState, request.View()))
              && (!returns_ ==> request.View() == old(request.View()) && checkState == old(checkState))
    {
      hide Find, TrimLeft, Stuck;
      var line := buf[text..text + len];
      var colon := Find(line, 0, ':');
      if colon != len {
        returns_ := request.AddHeader(buf, text, colon, len);
      } else {
        checkState := Content;
        returns_ := true;
      }
    }

    /** One turn of parseRequest's switch; None to go on with the next line. */
    method ParseText(text: nat, len: nat) returns (stop: Option<Result>)
      requires readIdx <= buf.Length && text + len < readIdx && buf[text + len] == NUL && checkState != Content
      modifies this`checkState, request
      ensures var turn := TakeLine(old(View()), buf[text..text + len]);
              && View() == turn.next
              && stop == (if turn.Go? then None else Some(turn.result))
    {
      hide TakeRequestLine, TakeHeader;
      if checkState == RequestLine {
        var ok := ParseRequestLine(text, len);
        if !ok {
          request.requestCode := BAD_REQUEST;
          return Some(Returns(BAD_REQUEST));
        }
      } else {
        var returns_ := ParseHeader(text, len);
        if !returns_ {
          return Some(Diverges);
        }
      }
      return None;
    }

    /** parseLine(): scans on from checkedIdx. */
    method ScanOn() returns (status: LineStatus)
      requires Valid()
      modifies this`checkedIdx, buf
      ensures readIdx <= buf.Length && old(View()).Scanned()
      ensures var scan := ScanLine(old(View()).buf, old(checkedIdx));
              status == scan.status && View() == old(View()).(buf := scan.buf, checked := scan.at)
      ensures View().Scanned()
    {
      hide ScanLine;
      ScanKeepsScanned(View());
      status, checkedIdx := ParseLine(buf, readIdx, checkedIdx);
    }

    /** parseLine and getLine: on success the line stands at `text`, `len` characters
        long and closed by a NUL. */
    method NextLine() returns (status: LineStatus, text: nat, len: nat)
      requires Valid()
      modifies this`checkedIdx, this`startLine, buf
      ensures Valid() && old(View()).Scanned() && View().Scanned()
      ensures status == ScanLine(old(View()).buf, old(checkedIdx)).status
      ensures status == LineOk ==> checkedIdx > old(checkedIdx)
      ensures checkState == old(checkState) && readIdx == old(readIdx)
      ensures var scan := ScanLine(old(View()).buf, old(checkedIdx));
              if status != LineOk then View() == old(View()).(buf := scan.buf, checked := scan.at)
              else old(startLine) <= scan.at - 2 && View() == PastLine(old(View()), scan)
                   && text + len < readIdx && buf[text + len] == NUL
                   && buf[text..text + len] == LineOf(old(View()), scan)
    {
      hide ScanLine;
      ghost var begun := View();
      text, len := startLine, 0;
      status := ScanOn();
      if status == LineOk {
        LineBounds(begun);
        EndsInNul(begun);
        len := checkedIdx - startLine - 2;
        startLine := checkedIdx;
        SliceOfFront(buf, readIdx, text, text + len);
      }
    }

    /** parseRequest on the buffer that was set. */
    method ParseRequest() returns (result: Result)
      requires Valid()
      modifies this`checkedIdx, this`startLine, this`checkState, buf, request
      ensures readIdx <= buf.Length && old(View()).Scanned()
      ensures (result, View()) == Parse(old(View()))
    {
      hide TakeLine, ScanLine, LineOf, PastLine, Parse;
      ghost var begun := View();
      while checkState != Content
        invariant Valid() && View().Scanned()
        invariant Parse(View()) == Parse(begun)
        decreases readIdx - checkedIdx
      {
        ghost var c := View();
        var status, text, len := NextLine();
        if status != LineOk {
          ParseEnds(c);
          request.requestCode := GET_REQUEST;
          return Returns(GET_REQUEST);
        }
        ParseTurn(c);
        ghost var line := LineOf(c, ScanLine(c.buf, c.checked));
        assert buf[text..text + len] == line;
        var stop := ParseText(text, len);
        if stop.Some? {
          return stop.value;
        }
      }
      ParseStops(View());
      startLine := checkedIdx;
      request.requestCode := GET_REQUEST;
      return Returns(GET_REQUEST);
    }

    /** reset(): ready for the next request. */
    method Reset()
      requires readIdx <= buf.Length
      modifies this`readIdx, this`checkedIdx, this`startLine, this`checkState, request
      ensures Valid() && View() == Fresh([])
    {
      readIdx, checkedIdx, startLine, checkState := 0, 0, 0, RequestLine;
      request.Reset();
    }
  }

  lemma SlicesOfLine(s: seq<char>, text: nat, colon: nat, n: nat)
    requires colon < n && text + n <= |s|
    ensures s[text..text + n][..colon] == s[text..text + colon]
    ensures s[text..text + n][colon + 1..] == s[text + colon + 1..text + n]
  {
  }

  lemma TrimOne(line: seq<char>, k: nat)
    requires k < |line| && IsSpace(line[k])
    ensures TrimLeft(line[k + 1..]) == TrimLeft(line[k..])
  {
    assert line[k..][1..] == line[k + 1..];
  }

  lemma SpaceIsNotNul()
    ensures !IsSpace(NUL)
  {
  }

  lemma TrimNone(line: seq<char>, k: nat)
    requires k <= |line| && (k < |line| ==> !IsSpace(line[k]))
    ensures TrimLeft(line[k..]) == line[k..]
  {
  }

  lemma SliceOfFront(buf: array<char>, n: nat, from: nat, to: nat)
    requires from <= to <= n <= buf.Length
    ensures buf[..n][from..to] == buf[from..to]
  {
  }

  lemma ScanKeepsScanned(c: Context)
    requires c.Scanned()
    ensures var scan := ScanLine(c.buf, c.checked);
            c.(buf := scan.buf, checked := scan.at).Scanned()
  {
    ScanLineMeaning(c.buf, c.checked);
  }

  /** The two characters behind a line that was found are NULs. */
  lemma EndsInNul(c: Context)
    requires c.Scanned() && ScanLine(c.buf, c.checked).status == LineOk
    ensures var scan := ScanLine(c.buf, c.checked);
            scan.at >= 2 && scan.buf[scan.at - 2] == NUL && scan.buf[scan.at - 1] == NUL
  {
    ScanLineMeaning(c.buf, c.checked);
  }
}
