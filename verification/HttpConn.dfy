/** The HttpConn class itself: parsing in place in readBuf, proved to compute what
    HttpConnSpec says. */
module HttpConns {
  import opened Lines
  import opened CStrings
  import opened HttpConnSpec

  const READ_BUFFER_SIZE := 2048

  class HttpConn {
    const readBuf: array<char>
    var readIdx: nat
    var startLine: nat
    var checkedIdx: nat
    var checkState: Phase
    var url: Option<nat>
    var version: Option<nat>
    var host: Option<nat>
    var contentLength: int
    var linger: bool

    ghost predicate Valid()
      reads this
    {
      readBuf.Length == READ_BUFFER_SIZE && startLine <= checkedIdx <= readIdx <= READ_BUFFER_SIZE
    }

    /** The abstract connection: only the received characters count. */
    ghost function View(): Conn
      reads this, readBuf
      requires Valid()
    {
      Conn(readBuf[..readIdx], checkedIdx, startLine, checkState, url, version, host, contentLength, linger)
    }

    constructor ()
      ensures Valid() && fresh(readBuf) && View() == Init
    {
      readBuf := new char[READ_BUFFER_SIZE](_ => NUL);
      readIdx, startLine, checkedIdx, checkState := 0, 0, 0, RequestLine;
      url, version, host, contentLength, linger := None, None, None, 0, false;
    }

    /** init() */
    method Reset()
      requires Valid()
      modifies this, readBuf
      ensures Valid() && View() == Init
      ensures forall k | 0 <= k < READ_BUFFER_SIZE :: readBuf[k] == NUL
    {
      checkState, linger := RequestLine, false;
      url, version, contentLength, host := None, None, 0, None;
      startLine, checkedIdx, readIdx := 0, 0, 0;
      forall k | 0 <= k < readBuf.Length {
        readBuf[k] := NUL;
      }
    }

    /** read(): recv delivers `chunk`, and then either would block or reports that
        the peer has closed or failed. A full buffer reads as end of file too. */
    method Read(chunk: seq<char>, ended: bool) returns (ok: bool)
      requires Valid() && readIdx + |chunk| <= READ_BUFFER_SIZE
      modifies this`readIdx, readBuf
      ensures Valid() && View() == Receive(old(View()), chunk)
      ensures ok == (!ended && readIdx < READ_BUFFER_SIZE)
    {
      ghost var before := readBuf[..readIdx];
      for i := 0 to |chunk|
        invariant readIdx == old(readIdx)
        invariant readBuf[..readIdx + i] == before + chunk[..i]
      {
        readBuf[readIdx + i] := chunk[i];
      }
      readIdx := readIdx + |chunk|;
      ok := !ended && readIdx < READ_BUFFER_SIZE;
    }

    /** Writes a NUL at offset u of the line at `text` and gives the line back. */
    method Cut(text: nat, line: seq<char>, u: nat) returns (cut: seq<char>)
      requires Valid() && u < |line| && text + |line| <= readIdx
      modifies readBuf
      ensures cut == line[u := NUL]
      ensures readBuf[..readIdx] == old(readBuf[..readIdx])[text + u := NUL]
    {
      readBuf[text + u] := NUL;
      cut := line[u := NUL];
    }

    /** parseRequestLine(text) */
    method ParseRequestLine(text: nat) returns (code: Outcome)
      requires Valid() && text <= readIdx
      modifies this`checkState, this`url, this`version, readBuf
      ensures Valid()
      ensures (code, View()) == TakeRequestLine(old(View()), text, CStr(old(View()).buf[text..]))
    {
      hide CStr, FirstBlank, SkipBlanks, StartsIgnoringCase, SameIgnoringCase, SplitTarget, Overlay;
      ghost var buf := readBuf[..readIdx];
      var line := CStr(readBuf[text..readIdx]);
      assert readBuf[text..readIdx] == buf[text..];
      OverlaySelf(buf, text, line);
      match FirstBlank(line, 0)
      case None =>
        url := None;
        return BadRequest;
      case Some(u) =>
        OverlayCut(buf, text, line, u);
        line := Cut(text, line, u);
        url := Some(text + u + 1);
        if !SameIgnoringCase(CStr(line), "get") {
          return BadRequest;
        }
        OverlayTwice(buf, text, line, line);
        code := ParseTarget(text, line, SkipBlanks(line, u + 1));
        OverlayTwice(buf, text, line, SplitTarget(line, SkipBlanks(line, u + 1)).text);
    }

    /** parseRequestLine from the target on. */
    method ParseTarget(text: nat, line0: seq<char>, target: nat) returns (code: Outcome)
      requires Valid() && text + |line0| <= readIdx && target <= |line0|
      requires Overlay(readBuf[..readIdx], text, line0) == readBuf[..readIdx]
      modifies this`checkState, this`url, this`version, readBuf
      ensures Valid()
      ensures var s := SplitTarget(line0, target);
              && readBuf[..readIdx] == Overlay(old(readBuf[..readIdx]), text, s.text)
              && url == Shift(s.url, text) && version == Shift(s.version, text)
              && code == (if s.ok then NoRequest else BadRequest)
              && checkState == (if s.ok then Headers else old(checkState))
    {
      hide CStr, FirstBlank, SkipBlanks, StartsIgnoringCase, SameIgnoringCase, JudgeRequest, Overlay;
      ghost var buf := readBuf[..readIdx];
      url := Some(text + target);
      match FirstBlank(line0, target)
      case None =>
        version := None;
        return BadRequest;
      case Some(v) =>
        OverlayCut(buf, text, line0, v);
        var line := Cut(text, line0, v);
        code := JudgeVersionAndTarget(text, line, target, SkipBlanks(line, v + 1));
    }

    /** The rest of parseRequestLine: the version test and the path of the target. */
    method JudgeVersionAndTarget(text: nat, line: seq<char>, target: nat, ver: nat) returns (code: Outcome)
      requires Valid() && target <= |line| && ver <= |line|
      modifies this`checkState, this`url, this`version
      ensures Valid()
      ensures var s := JudgeRequest(line, target, ver);
              && url == Shift(s.url, text) && version == Some(text + ver)
              && code == (if s.ok then NoRequest else BadRequest)
              && checkState == (if s.ok then Headers else old(checkState))
    {
      url, version := Some(text + target), Some(text + ver);
      if !SameIgnoringCase(CStr(line[ver..]), "http/1.1") {
        return BadRequest;
      }
      var path := Some(target);
      if StartsIgnoringCase(CStr(line[target..]), "http://") {
        path := FirstChar(line, target + 7, '/');
      }
      url := Shift(path, text);
      if path.None? || path.value == |line| || line[path.value] != '/' {
        return BadRequest;
      }
      checkState := Headers;
      return NoRequest;
    }

    /** parseHeaders(text), whose result GET_REQUEST leads to doRequest. */
    method ParseHeaders(text: nat) returns (code: Outcome)
      requires Valid() && text <= readIdx
      modifies this`checkState, this`linger, this`contentLength, this`host
      ensures Valid()
      ensures (code, View()) == TakeHeader(old(View()), text, CStr(old(View()).buf[text..]))
    {
      hide CStr, StartsIgnoringCase, SameIgnoringCase, SkipBlanks, AtolToInt;
      var line := CStr(readBuf[text..readIdx]);
      assert readBuf[text..readIdx] == readBuf[..readIdx][text..];
      if line == [] {
        if contentLength != 0 {
          checkState := Content;
          return BodyFollows;
        }
        return DoRequest;
      } else if StartsIgnoringCase(line, "connection:") {
        if SameIgnoringCase(line[SkipBlanks(line, 11)..], "keep-alive") {
          linger := true;
        }
      } else if StartsIgnoringCase(line, "content-length:") {
        contentLength := AtolToInt(line[SkipBlanks(line, 15)..]);
      } else if StartsIgnoringCase(line, "host:") {
        host := Some(text + SkipBlanks(line, 5));
      }
      return NoRequest;
    }

    /** The switch of processRead on the line at `text`. */
    method ParseText(text: nat) returns (ret: Outcome)
      requires Valid() && text <= readIdx && checkState != Content
      modifies this`checkState, this`url, this`version, this`linger, this`contentLength, this`host, readBuf
      ensures Valid() && (ret, View()) == TakeLine(old(View()), text)
      ensures ret == NoRequest ==> checkState != Content
    {
      hide TakeRequestLine, TakeHeader, CStr;
      TakeLinePhase(View(), text);
      if checkState == RequestLine {
        ret := ParseRequestLine(text);
      } else {
        ret := ParseHeaders(text);
      }
    }

    /** processRead(), up to the point where it would read a body. */
    method ProcessRead() returns (ret: Outcome)
      requires Valid()
      modifies this, readBuf
      ensures Valid()
      ensures (ret, View()) == Process(old(View()))
    {
      hide TakeLine, ScanLine;
      if checkState == Content {
        return BodyFollows;
      }
      hide Process;
      ghost var begun := View();
      var status, at := ParseLine(readBuf, readIdx, checkedIdx);
      while status == LineOk
        invariant Valid() && begun.Wf() && begun.phase != Content
        invariant Process(old(View())) == Process(begun)
        invariant begun == View().(buf := begun.buf)
        invariant Scan(status, readBuf[..readIdx], at) == ScanLine(begun.buf, checkedIdx)
        decreases readIdx - checkedIdx
      {
        var text := startLine;
        checkedIdx := at;
        startLine := at;
        ProcessLine(begun);
        ret := ParseText(text);
        if ret != NoRequest {
          return ret;
        }
        begun := View();
        status, at := ParseLine(readBuf, readIdx, checkedIdx);
      }
      ProcessEnds(begun);
      checkedIdx := at;
      return NoRequest;
    }
  }

  lemma TakeLinePhase(c: Conn, at: nat)
    requires at <= |c.buf| && c.phase != Content
    ensures TakeLine(c, at).0 == NoRequest ==> TakeLine(c, at).1.phase == Headers
  {
    hide SplitRequestLine, InfoOf;
  }

  lemma OverlaySelf(buf: seq<char>, at: nat, text: seq<char>)
    requires at <= |buf| && text == CStr(buf[at..])
    ensures Overlay(buf, at, text) == buf
  {
  }

  lemma OverlayTwice(buf: seq<char>, at: nat, first: seq<char>, second: seq<char>)
    requires at + |first| <= |buf| && |first| == |second|
    ensures Overlay(Overlay(buf, at, first), at, second) == Overlay(buf, at, second)
    ensures Overlay(Overlay(buf, at, first), at, first) == Overlay(buf, at, first)
  {
  }

  lemma OverlayCut(buf: seq<char>, at: nat, text: seq<char>, u: nat)
    requires at + |text| <= |buf| && u < |text|
    ensures Overlay(buf, at, text)[at + u := NUL] == Overlay(buf, at, text[u := NUL])
  {
  }
}
