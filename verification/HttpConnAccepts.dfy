/** Exactly which requests HttpConn accepts, over all request lines: the words of a line
    are found for any line that has them, and a line that lacks them is rejected. */
module HttpConnAccepts {
  import opened Lines
  import opened CStrings
  import opened HttpConnSpec
  import opened HttpConnMeaning

  /** The line consists of these three words and parseRequestLine takes them. */
  predicate Says(p: Parts, text: seq<char>) {
    p.Ok() && p.Text() == text && p.Accepted()
  }

  // ---------- cutting any line into words ----------

  /** The searches for blanks from `i` on see only the characters from `i` on. */
  lemma {:induction false} SameFromHere(s: seq<char>, t: seq<char>, i: nat)
    requires i <= |s| == |t| && forall k | i <= k < |s| :: s[k] == t[k]
    ensures FirstBlank(s, i) == FirstBlank(t, i) && SkipBlanks(s, i) == SkipBlanks(t, i)
    decreases |s| - i
  {
    if i < |s| { SameFromHere(s, t, i + 1); }
  }

  /** Where the second word of a line begins. */
  function SecondWord(text: seq<char>): (r: Option<nat>)
    ensures r.Some? ==> r.value <= |text|
  {
    match FirstBlank(text, 0)
    case None => None
    case Some(u) => Some(SkipBlanks(text, u + 1))
  }

  lemma IsWord(text: seq<char>, i: nat, j: nat)
    requires i <= j <= |text| && forall k | i <= k < j :: text[k] != NUL && !IsBlank(text[k])
    ensures Word(text[i..j])
  {
  }

  lemma IsGap(text: seq<char>, i: nat, j: nat)
    requires i < j <= |text| && forall k | i <= k < j :: IsBlank(text[k])
    ensures Blanks(text[i..j])
  {
  }

  /** From `i` on: a word, the gap behind it, and what follows does not begin with a blank. */
  lemma WordAndGap(text: seq<char>, i: nat) returns (u: nat, next: nat)
    requires i <= |text| && FirstBlank(text, i).Some?
    ensures FirstBlank(text, i) == Some(u) && i <= u < |text| && next == SkipBlanks(text, u + 1)
    ensures u < next <= |text| && Word(text[i..u]) && Blanks(text[u..next])
    ensures next < |text| ==> !IsBlank(text[next])
    ensures !IsBlank(text[i]) ==> i < u
  {
    u := FirstBlank(text, i).value;
    next := SkipBlanks(text, u + 1);
    hide FirstBlank, SkipBlanks;
    IsWord(text, i, u);
    IsGap(text, u, next);
  }

  /** A line cut at these four places is made of five parts. */
  lemma CutsMakeParts(text: seq<char>, u: nat, i: nat, v: nat, w: nat)
    requires NulFree(text) && u < i < v < w <= |text| && (w < |text| ==> !IsBlank(text[w]))
    requires Word(text[..u]) && Blanks(text[u..i]) && Word(text[i..v]) && Blanks(text[v..w])
    ensures Parts(text[..u], text[u..i], text[i..v], text[v..w], text[w..]).Ok()
  {
    hide Word, Blanks, IsBlank;
  }

  lemma SecondWordBehind(text: seq<char>, u: nat, i: nat)
    requires FirstBlank(text, 0) == Some(u) && u < |text| && i == SkipBlanks(text, u + 1)
    ensures SecondWord(text) == Some(i)
  {
    hide FirstBlank, SkipBlanks;
  }

  /** A line with two gaps between blanks and words is made of five parts. */
  lemma Decompose(text: seq<char>) returns (p: Parts)
    requires NulFree(text) && SecondWord(text).Some? && FirstBlank(text, SecondWord(text).value).Some?
    ensures p.Ok() && p.Text() == text
  {
    assert FirstBlank(text, 0).Some?;
    hide FirstBlank, SkipBlanks, IsBlank, Word, Blanks, NulFree, SecondWord, Parts.Ok, Parts.Text;
    var u, i := WordAndGap(text, 0);
    SecondWordBehind(text, u, i);
    var v, w := WordAndGap(text, i);
    assert text[0..u] == text[..u];
    p := Parts(text[..u], text[u..i], text[i..v], text[v..w], text[w..]);
    CutsMakeParts(text, u, i, v, w);
    FiveParts(text, u, i, v, w);
  }

  lemma FiveParts(text: seq<char>, u: nat, i: nat, v: nat, w: nat)
    requires u <= i <= v <= w <= |text|
    ensures Parts(text[..u], text[u..i], text[i..v], text[v..w], text[w..]).Text() == text
  {
    assert text[i..v] + text[v..w] + text[w..] == text[i..];
    assert text[..u] + text[u..i] + text[i..] == text;
    assert [] + text[..u] == text[..u];
  }

  /** Without two gaps a line is rejected. */
  lemma TooFewWords(text: seq<char>)
    requires SecondWord(text).None? || FirstBlank(text, SecondWord(text).value).None?
    ensures !SplitRequestLine(text).ok
  {
    hide FirstBlank, SkipBlanks, CStr, SameIgnoringCase;
    if FirstBlank(text, 0).Some? {
      var u := FirstBlank(text, 0).value;
      var t1 := text[u := NUL];
      SameFromHere(text, t1, u + 1);
      SameFromHere(text, t1, SkipBlanks(text, u + 1));
    }
  }

  /**
   * For every line: parseRequestLine accepts it if and only if it consists of a GET in
   * any case, a target with a path, and HTTP/1.1 in any case, set apart by blanks.
   */
  lemma AcceptedExactly(text: seq<char>)
    requires NulFree(text)
    ensures SplitRequestLine(text).ok <==> exists p :: Says(p, text)
  {
    hide SplitRequestLine, SecondWord, FirstBlank;
    if SecondWord(text).Some? && FirstBlank(text, SecondWord(text).value).Some? {
      var p := Decompose(text);
      SplitMeans(p);
      assert p.Accepted() ==> Says(p, text);
    } else {
      TooFewWords(text);
    }
    forall p | Says(p, text)
      ensures SplitRequestLine(text).ok
    {
      SplitMeans(p);
    }
  }

  // ---------- whole requests ----------

  lemma RejectedLine(text: seq<char>, more: seq<char>)
    requires NoLineEnd(text) && !SplitRequestLine(CStr(text)).ok
    ensures Process(Receive(Init, text + "\r\n" + more)).0 == BadRequest
  {
    hide ScanLine, SplitRequestLine, FoundLine, CStr;
    FindRequestLine(text, more);
    FoundLength(text, more);
    ProcessLine(Receive(Init, text + "\r\n" + more));
  }

  lemma StringIsNulFree(text: seq<char>)
    ensures NulFree(CStr(text))
  {
    assert NUL !in CStr(text);
  }

  /** The characters of a request. */
  function Request(text: seq<char>, lines: seq<seq<char>>, end: seq<char>, rest: seq<char>): seq<char> {
    text + "\r\n" + (RenderLines(lines) + (end + "\r\n" + rest))
  }

  /** processRead got through the request and took from it what these words and lines say. */
  ghost predicate Served(r: (Outcome, Conn), p: Parts, lines: seq<seq<char>>, rest: seq<char>) {
    && Taken(r.1, p, Strings(lines), rest)
    && r.0 == if BodyLength(Strings(lines)) == 0 then DoRequest else BodyFollows
  }

  /**
   * A complete request with any first line: it is rejected exactly when the string in
   * that line does not say GET, path and version; whatever it says is then what the
   * connection holds.
   */
  lemma AnyRequestMeans(text: seq<char>, lines: seq<seq<char>>, end: seq<char>, rest: seq<char>)
    requires NoLineEnd(text) && EndLine(end) && forall k | 0 <= k < |lines| :: HeaderLine(lines[k])
    ensures var r := Process(Receive(Init, Request(text, lines, end, rest)));
            && (r.0 == BadRequest <==> !exists p :: Says(p, CStr(text)))
            && (forall p | Says(p, CStr(text)) :: Served(r, p, lines, rest))
  {
    hide HeaderLine, EndLine, Says, Served, Process, RenderLines, CStr;
    if p :| Says(p, CStr(text)) {
      SaidIsServed(p, text, lines, end, rest);
    } else {
      BadIsRejected(Request(text, lines, end, rest), text, RenderLines(lines) + (end + "\r\n" + rest));
    }
    forall p | Says(p, CStr(text))
      ensures Served(Process(Receive(Init, Request(text, lines, end, rest))), p, lines, rest)
    {
      SaidIsServed(p, text, lines, end, rest);
    }
  }

  lemma SaidIsServed(p: Parts, text: seq<char>, lines: seq<seq<char>>, end: seq<char>, rest: seq<char>)
    requires Says(p, CStr(text)) && NoLineEnd(text)
    requires EndLine(end) && forall k | 0 <= k < |lines| :: HeaderLine(lines[k])
    ensures var r := Process(Receive(Init, Request(text, lines, end, rest)));
            Served(r, p, lines, rest) && r.0 != BadRequest
  {
    hide HeaderLine, EndLine, Taken, BodyLength, Strings, Process, RenderLines, CStr;
    RequestMeans(p, text, lines, end, rest);
  }

  /** The first line is complete, and its string is no GET of a path over HTTP/1.1. */
  ghost predicate BadFirstLine(buf: seq<char>, text: seq<char>, more: seq<char>) {
    NoLineEnd(text) && buf == text + "\r\n" + more && !exists p :: Says(p, CStr(text))
  }

  lemma BadIsRejected(buf: seq<char>, text: seq<char>, more: seq<char>)
    requires BadFirstLine(buf, text, more)
    ensures Process(Receive(Init, buf)).0 == BadRequest
  {
    hide SplitRequestLine, Process, CStr, Says;
    StringIsNulFree(text);
    AcceptedExactly(CStr(text));
    RejectedLine(text, more);
  }

  // ---------- every buffer ----------

  predicate Reached(outcome: Outcome) {
    outcome == DoRequest || outcome == BodyFollows
  }

  /** Where processRead gets past the header section, there was one. */
  lemma {:induction false} SectionFound(c: Conn) returns (lines: seq<seq<char>>, end: seq<char>, rest: seq<char>)
    requires Scanned(c) && c.phase == Headers && c.start == c.checked
    ensures Process(c).0 != BadRequest
    ensures Reached(Process(c).0) ==>
              && EndLine(end) && (forall k | 0 <= k < |lines| :: HeaderLine(lines[k]))
              && c.buf[c.start..] == RenderLines(lines) + (end + "\r\n" + rest)
    decreases |c.buf| - c.checked
  {
    hide ScanLine, Process, CStr, InfoOf;
    lines, end, rest := [], [], [];
    if ScanLine(c.buf, c.checked).status != LineOk {
      ProcessEnds(c);
    } else {
      var pre := c.buf[..c.start];
      var line, tail := LineFound(c.buf, c.start);
      assert c.buf[c.start..] == line + "\r\n" + tail;
      if CStr(line) == [] {
        EndStep(c, pre, line, tail);
        end, rest := line, tail;
      } else {
        OneHeaderLine(c, pre, line, tail);
        var later;
        later, end, rest := SectionFound(MovedTo(Note(c, |pre|, InfoOf(CStr(line))), pre + line + [NUL, NUL], tail));
        lines := [line] + later;
        OneMore(line, later, end + "\r\n" + rest);
      }
    }
  }

  lemma OneMore(line: seq<char>, later: seq<seq<char>>, more: seq<char>)
    ensures line + "\r\n" + (RenderLines(later) + more) == RenderLines([line] + later) + more
  {
    assert ([line] + later)[1..] == later;
  }

  /** An accepted first line, header lines, and the line that ends them. */
  ghost predicate Complete(buf: seq<char>, text: seq<char>, lines: seq<seq<char>>, end: seq<char>, rest: seq<char>) {
    && NoLineEnd(text) && EndLine(end) && (forall k | 0 <= k < |lines| :: HeaderLine(lines[k]))
    && buf == Request(text, lines, end, rest)
    && exists p :: Says(p, CStr(text))
  }

  lemma FirstLineStep(p: Parts, text: seq<char>, more: seq<char>)
    requires NoLineEnd(text) && Says(p, CStr(text))
    ensures var d := AfterRequestLine(p, Behind(text), more);
            && Scanned(d) && d.phase == Headers && d.start == d.checked && d.buf[d.start..] == more
            && Process(Receive(Init, text + "\r\n" + more)) == Process(d)
  {
    hide p.Cut, Process, CStr, p.PathAt, p.VersionAt;
    RequestLineStep(p, text, more);
  }

  lemma BehindFirstLine(p: Parts, text: seq<char>, more: seq<char>)
    returns (lines: seq<seq<char>>, end: seq<char>, rest: seq<char>)
    requires NoLineEnd(text) && Says(p, CStr(text))
    ensures Process(Receive(Init, text + "\r\n" + more)).0 != BadRequest
    ensures Reached(Process(Receive(Init, text + "\r\n" + more)).0) ==>
              && EndLine(end) && (forall k | 0 <= k < |lines| :: HeaderLine(lines[k]))
              && more == RenderLines(lines) + (end + "\r\n" + rest)
  {
    assert p.Ok() && p.Accepted();
    hide Process, CStr, Says, RenderLines, p.Ok, p.Accepted, AfterRequestLine, EndLine, HeaderLine;
    FirstLineStep(p, text, more);
    lines, end, rest := SectionFound(AfterRequestLine(p, Behind(text), more));
  }

  /** From how processRead ended to what the buffer holds. */
  lemma BufferFound(buf: seq<char>)
    ensures var outcome := Process(Receive(Init, buf)).0;
            && (outcome == BadRequest ==> exists text, more :: BadFirstLine(buf, text, more))
            && (Reached(outcome) ==> exists text, lines, end, rest :: Complete(buf, text, lines, end, rest))
  {
    hide ScanLine, Process, CStr, Says, RenderLines, EndLine, HeaderLine;
    assert [] + buf == buf;
    if ScanLine(buf, 0).status != LineOk {
      ProcessEnds(Receive(Init, buf));
    } else {
      var text, more := LineFound(buf, 0);
      assert buf == text + "\r\n" + more;
      if p :| Says(p, CStr(text)) {
        var lines, end, rest := BehindFirstLine(p, text, more);
        assert Reached(Process(Receive(Init, buf)).0) ==> Complete(buf, text, lines, end, rest);
      } else {
        assert BadFirstLine(buf, text, more);
        BadIsRejected(buf, text, more);
      }
    }
  }

  lemma CompleteIsReached(buf: seq<char>, text: seq<char>, lines: seq<seq<char>>, end: seq<char>, rest: seq<char>)
    requires Complete(buf, text, lines, end, rest)
    ensures Reached(Process(Receive(Init, buf)).0)
  {
    var p :| Says(p, CStr(text));
    hide Process, CStr, Says, Taken, BodyLength, RenderLines, Strings, HeaderLine, EndLine;
    SaidIsServed(p, text, lines, end, rest);
  }

  /**
   * For every buffer: processRead answers BAD_REQUEST if and only if a complete first line
   * is not a GET of a path over HTTP/1.1, and it gets to doRequest or to a body if and only
   * if such a line is followed by header lines and an empty one; otherwise it wants more.
   */
  lemma EveryBuffer(buf: seq<char>)
    ensures var outcome := Process(Receive(Init, buf)).0;
            && (outcome == BadRequest <==> exists text, more :: BadFirstLine(buf, text, more))
            && (Reached(outcome) <==> exists text, lines, end, rest :: Complete(buf, text, lines, end, rest))
  {
    hide Process, BadFirstLine, Complete;
    BufferFound(buf);
    forall text, more | BadFirstLine(buf, text, more)
      ensures Process(Receive(Init, buf)).0 == BadRequest
    {
      BadIsRejected(buf, text, more);
    }
    forall text, lines, end, rest | Complete(buf, text, lines, end, rest)
      ensures Reached(Process(Receive(Init, buf)).0)
    {
      CompleteIsReached(buf, text, lines, end, rest);
    }
  }
}
