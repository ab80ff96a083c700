/** Which buffers make HttpContext::parseRequest come to which end, over all buffers: the
    converses of what HttpContextSpec says about requests of a given form. */
module HttpContextAccepts {
  import opened Lines
  import opened HttpContextSpec

  // ---------- taking a header section apart ----------

  /** One turn of the loop in the header section, for whatever line was found. */
  lemma HeaderTurn(c: Context) returns (line: seq<char>, rest: seq<char>)
    requires c.Scanned() && c.state == Header && c.start == c.checked
    requires ScanLine(c.buf, c.checked).status == LineOk
    ensures NoLineEnd(line) && c.buf[c.start..] == line + "\r\n" + rest
    ensures var d := MovedTo(c, c.buf[..c.start] + line + [NUL, NUL], rest);
            && d.Scanned()
            && Parse(c) ==
               match TakeHeader(c.request, line)
               case None => (Diverges, d)
               case Some((state, request)) => Parse(d.(state := state, request := request))
  {
    line, rest := LineFound(c.buf, c.start);
    hide ScanLine, TakeHeader, Parse;
    HeaderStep(c, c.buf[..c.start], line, rest);
    BehindFront(c.buf[..c.start], line, rest);
  }

  lemma BehindFront(pre: seq<char>, line: seq<char>, rest: seq<char>)
    ensures (pre + line + "\r\n" + rest)[|pre|..] == line + "\r\n" + rest
  {
  }

  /**
   * Whatever stands behind a first line: the header lines parseRequest took, and what is
   * left. It diverges only on a stuck value, and gets to the content only past a line
   * without a colon.
   */
  lemma {:induction false} SectionFound(c: Context)
    returns (fields: seq<Field>, more: seq<char>, end: seq<char>, rest: seq<char>)
    requires c.Scanned() && c.state == Header && c.start == c.checked
    ensures forall k | 0 <= k < |fields| :: fields[k].Ok()
    ensures c.buf[c.start..] == RenderFields(fields) + more
    ensures Parse(c).0 == Diverges ==> AnyStuck(fields)
    ensures Parse(c).1.state == Content ==>
              !AnyStuck(fields) && ':' !in end && NoLineEnd(end) && more == end + "\r\n" + rest
    ensures Parse(c).0 != Returns(BAD_REQUEST)
    decreases |c.buf| - c.checked
  {
    hide AnyStuck, ScanLine, Stuck, TrimLeft, TakeHeader, Parse;
    fields, more, end, rest := [], c.buf[c.start..], [], [];
    NothingStuck();
    if ScanLine(c.buf, c.checked).status != LineOk {
      ParseEnds(c);
    } else {
      var line, tail := HeaderTurn(c);
      var d := MovedTo(c, c.buf[..c.start] + line + [NUL, NUL], tail);
      if ':' in line {
        var f := ColonMakesField(line);
        FieldMeans(c.request, f);
        if Stuck(f.Taken()) {
          fields, more := [f], tail;
          OneMore(f, [], tail);
          AnyStuckFront(fields);
        } else {
          var headers := c.request.headers[f.key := f.Taken()];
          var later;
          later, more, end, rest := SectionFound(d.(request := c.request.(headers := headers)));
          fields := [f] + later;
          OneMore(f, later, more);
          AnyStuckFront(fields);
        }
      } else {
        end, rest := line, tail;
        ColonlessEnds(c.request, end);
        ParseStops(d.(state := Content));
      }
    }
  }

  lemma NothingStuck()
    ensures !AnyStuck([])
  {
  }

  lemma OneMore(f: Field, later: seq<Field>, more: seq<char>)
    ensures f.Text() + "\r\n" + (RenderFields(later) + more) == RenderFields([f] + later) + more
    ensures ([f] + later)[1..] == later
  {
  }

  // ---------- every buffer ----------

  /** The buffer begins with an accepted first line and these header lines. */
  ghost predicate Opens(buf: seq<char>, m: Message, more: seq<char>) {
    m.Ok() && m.Accepted() && buf == m.FirstLine() + "\r\n" + (RenderFields(m.fields) + more)
  }

  /** It goes on with a line without a colon, and no value has white space at its end. */
  ghost predicate Complete(buf: seq<char>, m: Message, end: seq<char>, rest: seq<char>) {
    Opens(buf, m, end + "\r\n" + rest) && ':' !in end && NoLineEnd(end) && !AnyStuck(m.fields)
  }

  ghost predicate StuckIn(buf: seq<char>, m: Message, more: seq<char>) {
    Opens(buf, m, more) && AnyStuck(m.fields)
  }

  /** The buffer's first line is complete and is no request line. */
  ghost predicate BadFirstLine(buf: seq<char>, line: seq<char>, more: seq<char>) {
    NoLineEnd(line) && buf == line + "\r\n" + more && !exists m: Message :: m.Says(line)
  }

  lemma SaidAtAll(line: seq<char>, fields: seq<Field>)
    ensures TakeRequestLine(Blank, line).0 <==> exists m: Message :: m.Says(line)
    ensures TakeRequestLine(Blank, line).0 ==> exists m: Message :: m.fields == fields && m.Says(line)
  {
    hide TakeRequestLine;
    AcceptedExactly(Blank, line, fields);
    forall m: Message | m.Says(line)
      ensures TakeRequestLine(Blank, line).0
    {
      AcceptedExactly(Blank, line, m.fields);
    }
  }

  /** From how parsing ended to what the buffer holds. */
  lemma BufferFound(buf: seq<char>)
    ensures var (result, c) := Parse(Fresh(buf));
            && (result == Returns(BAD_REQUEST) ==> exists line, more :: BadFirstLine(buf, line, more))
            && (result == Diverges ==> exists m, more :: StuckIn(buf, m, more))
            && (c.state == Content ==> exists m, end, rest :: Complete(buf, m, end, rest))
  {
    hide ScanLine, TakeRequestLine, Parse, AnyStuck;
    if ScanLine(buf, 0).status != LineOk {
      ParseEnds(Fresh(buf));
    } else {
      var line, tail := LineFound(buf, 0);
      assert buf == line + "\r\n" + tail;
      AnyFirstLineStep(line, tail);
      var (ok, r) := TakeRequestLine(Blank, line);
      if ok {
        var d := MovedTo(Fresh(buf), line + [NUL, NUL], tail).(state := Header, request := r);
        assert d.buf[d.start..] == tail;
        var fields, more, end, rest := SectionFound(d);
        SaidAtAll(line, fields);
        var m: Message :| m.fields == fields && m.Says(line);
        assert Opens(buf, m, more);
        assert AnyStuck(fields) ==> StuckIn(buf, m, more);
        assert Parse(d).1.state == Content ==> Complete(buf, m, end, rest);
      } else {
        SaidAtAll(line, []);
        assert BadFirstLine(buf, line, tail);
      }
    }
  }

  lemma BadIsRejected(buf: seq<char>, line: seq<char>, more: seq<char>)
    requires BadFirstLine(buf, line, more)
    ensures Parse(Fresh(buf)).0 == Returns(BAD_REQUEST)
  {
    hide TakeRequestLine, Parse;
    SaidAtAll(line, []);
    AnyFirstLineStep(line, more);
  }

  lemma StuckNeverReturns(buf: seq<char>, m: Message, more: seq<char>)
    requires StuckIn(buf, m, more)
    ensures Parse(Fresh(buf)).0 == Diverges
  {
    hide m.FirstLine, m.Accepted, RenderFields, ScannedFields, AnyStuck, FieldMap, Parse;
    var line, fields := m.FirstLine(), RenderFields(m.fields);
    AnyFirstLineStep(line, fields + more);
    FirstLineTaken(m);
    var pre := line + [NUL, NUL];
    var d := MovedTo(Fresh(buf), pre, fields + more).(state := Header,
      request := Blank.(method_ := m.method_, path := m.path, query := m.query, version := m.version));
    Assoc(pre, fields, more);
    FieldsPass(d, pre, m.fields, more);
  }

  lemma CompleteIsTaken(buf: seq<char>, m: Message, end: seq<char>, rest: seq<char>)
    requires Complete(buf, m, end, rest)
    ensures Parse(Fresh(buf)).1.state == Content
  {
    hide m.FirstLine, m.Accepted, RenderFields, AnyStuck, Parse;
    SectionStep(m, end, rest);
  }

  /**
   * For every buffer: parseRequest answers BAD_REQUEST if and only if a complete first line
   * is no request line; it never returns if and only if an accepted first line is followed
   * by header lines one of which has a value with white space at its end; and it gets to
   * the content if and only if an accepted first line is followed by header lines without
   * such a value and by a line without a colon.
   */
  lemma EveryBuffer(buf: seq<char>)
    ensures var (result, c) := Parse(Fresh(buf));
            && (result == Returns(BAD_REQUEST) <==> exists line, more :: BadFirstLine(buf, line, more))
            && (result == Diverges <==> exists m, more :: StuckIn(buf, m, more))
            && (c.state == Content <==> exists m, end, rest :: Complete(buf, m, end, rest))
  {
    hide Parse, BadFirstLine, StuckIn, Complete;
    BufferFound(buf);
    forall line, more | BadFirstLine(buf, line, more)
      ensures Parse(Fresh(buf)).0 == Returns(BAD_REQUEST)
    {
      BadIsRejected(buf, line, more);
    }
    forall m, more | StuckIn(buf, m, more)
      ensures Parse(Fresh(buf)).0 == Diverges
    {
      StuckNeverReturns(buf, m, more);
    }
    forall m, end, rest | Complete(buf, m, end, rest)
      ensures Parse(Fresh(buf)).1.state == Content
    {
      CompleteIsTaken(buf, m, end, rest);
    }
  }
}
