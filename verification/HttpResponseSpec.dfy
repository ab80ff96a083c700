/** What src/HttpResponse.cc prints, and what a reader with this repository's own line
    splitter and header reader gets back. */
module HttpResponseSpec {
  import Decimal
  import opened Lines
  import opened CStrings
  import H = HttpContextSpec

  type Headers = map<seq<char>, seq<char>>

  datatype Response = Response(
    version: seq<char>,
    code: seq<char>,
    msg: seq<char>,
    body: seq<char>,
    headers: Headers,
    close: bool)
  {
    function StatusLine(): seq<char> {
      version + " " + code + " " + msg
    }

    /** The header lines that say where the body ends. */
    function Framing(): seq<H.Field> {
      if close then [H.Sent("Connection", "close")]
      else [H.Sent(CONTENT_LENGTH, Decimal.Render(|body|)), H.Sent("Connection", "Keep-Alive")]
    }

    ghost function Fields(): seq<H.Field> {
      Framing() + SortedFields(headers)
    }

    /** The status line, header names and values fit into lines. */
    ghost predicate Ok() {
      && NoLineEnd(StatusLine())
      && forall key :: key in headers ==> H.Sent(key, headers[key]).Ok()
    }

    /** No header value has white space at an end. */
    ghost predicate AllClean() {
      forall key :: key in headers ==> H.Clean(headers[key])
    }

    ghost function Text(): seq<char> {
      StatusLine() + "\r\n" + (H.RenderFields(Fields()) + ("\r\n" + body))
    }

    /** The header map a reader ends up with: `headers` overrides the framing fields. */
    function ReadBack(): Headers {
      (if close then map["Connection" := "close"]
       else map[CONTENT_LENGTH := Decimal.Render(|body|), "Connection" := "Keep-Alive"]) + headers
    }
  }

  const CONTENT_LENGTH := "Content-Length"

  // ---------- the order of std::map<std::string, ...> ----------

  predicate Precedes(a: seq<char>, b: seq<char>) {
    if a == [] then true
    else b != [] && (a[0] < b[0] || (a[0] == b[0] && Precedes(a[1..], b[1..])))
  }

  lemma {:induction false} PrecedesIsTotal(a: seq<char>, b: seq<char>)
    ensures Precedes(a, b) || Precedes(b, a)
  {
    if a != [] && b != [] && a[0] == b[0] { PrecedesIsTotal(a[1..], b[1..]); }
  }

  lemma {:induction false} PrecedesIsAntisymmetric(a: seq<char>, b: seq<char>)
    requires Precedes(a, b) && Precedes(b, a)
    ensures a == b
  {
    if a != [] {
      PrecedesIsAntisymmetric(a[1..], b[1..]);
      assert a == [a[0]] + a[1..] && b == [b[0]] + b[1..];
    }
  }

  lemma {:induction false} PrecedesIsTransitive(a: seq<char>, b: seq<char>, c: seq<char>)
    requires Precedes(a, b) && Precedes(b, c)
    ensures Precedes(a, c)
  {
    if a != [] && a[0] == b[0] == c[0] { PrecedesIsTransitive(a[1..], b[1..], c[1..]); }
  }

  predicate IsFirst(key: seq<char>, keys: set<seq<char>>) {
    key in keys && forall k :: k in keys ==> Precedes(key, k)
  }

  lemma {:induction false} FirstExists(keys: set<seq<char>>) returns (key: seq<char>)
    requires keys != {}
    ensures IsFirst(key, keys)
    decreases |keys|
  {
    key :| key in keys;
    var rest := keys - {key};
    PrecedesIsTotal(key, key);
    if rest != {} {
      var other := FirstExists(rest);
      PrecedesIsTotal(key, other);
      if !Precedes(key, other) {
        key := other;
      } else {
        forall k | k in rest
          ensures Precedes(key, k)
        {
          PrecedesIsTransitive(key, other, k);
        }
      }
    }
  }

  ghost function FirstKey(keys: set<seq<char>>): (key: seq<char>)
    requires keys != {}
    ensures IsFirst(key, keys)
  {
    assert exists key :: IsFirst(key, keys) by {
      var key := FirstExists(keys);
    }
    var key :| IsFirst(key, keys);
    key
  }

  lemma FirstKeyIs(keys: set<seq<char>>, key: seq<char>)
    requires IsFirst(key, keys)
    ensures keys != {} && FirstKey(keys) == key
  {
    PrecedesIsAntisymmetric(key, FirstKey(keys));
  }

  /** The entries of the map in iteration order. */
  ghost function SortedFields(m: Headers): (fields: seq<H.Field>)
    decreases |m|
  {
    if m == map[] then []
    else
      assert m.Keys != {} by { var k :| k in m; assert k in m.Keys; }
      var key := FirstKey(m.Keys);
      Smaller(m, key);
      [H.Sent(key, m[key])] + SortedFields(m - {key})
  }

  lemma Smaller(m: Headers, key: seq<char>)
    requires key in m
    ensures |m - {key}| < |m|
  {
    assert m.Keys == (m - {key}).Keys + {key};
  }

  lemma SortedFieldsFront(m: Headers) returns (key: seq<char>)
    requires m != map[]
    ensures IsFirst(key, m.Keys) && |m - {key}| < |m|
    ensures SortedFields(m) == [H.Sent(key, m[key])] + SortedFields(m - {key})
  {
    assert m.Keys != {} by { var k :| k in m; assert k in m.Keys; }
    key := FirstKey(m.Keys);
    Smaller(m, key);
  }

  /** The listing has exactly the map's entries. */
  lemma {:induction false} SortedFieldsListTheMap(m: Headers)
    ensures forall f :: f in SortedFields(m) <==> f.key in m && f == H.Sent(f.key, m[f.key])
    decreases |m|
  {
    if m != map[] {
      var key := SortedFieldsFront(m);
      SortedFieldsListTheMap(m - {key});
      hide SortedFields, IsFirst;
      forall f
        ensures f in SortedFields(m) <==> f.key in m && f == H.Sent(f.key, m[f.key])
      {
        assert f in SortedFields(m) <==> f == H.Sent(key, m[key]) || f in SortedFields(m - {key});
      }
    }
  }

  predicate Increasing(fs: seq<H.Field>) {
    forall i, j :: 0 <= i < j < |fs| ==> Precedes(fs[i].key, fs[j].key) && fs[i].key != fs[j].key
  }

  lemma IncreasingFront(f: H.Field, rest: seq<H.Field>)
    requires Increasing(rest) && forall g | g in rest :: Precedes(f.key, g.key) && f.key != g.key
    ensures Increasing([f] + rest)
  {
    hide Precedes;
    var fs := [f] + rest;
    forall i, j | 0 <= i < j < |fs|
      ensures Precedes(fs[i].key, fs[j].key) && fs[i].key != fs[j].key
    {
      assert fs[j] == rest[j - 1];
      if i > 0 { assert fs[i] == rest[i - 1]; }
    }
  }

  /** Its names are strictly increasing, as std::map iterates. */
  lemma {:induction false} SortedFieldsAreSorted(m: Headers)
    ensures Increasing(SortedFields(m))
    decreases |m|
  {
    if m != map[] {
      var key := SortedFieldsFront(m);
      SortedFieldsAreSorted(m - {key});
      SortedFieldsListTheMap(m - {key});
      hide SortedFields, Precedes, Increasing;
      IncreasingFront(H.Sent(key, m[key]), SortedFields(m - {key}));
    }
  }

  /** Reading the listing back into a map that already has entries: the listing wins. */
  lemma {:induction false} ReadingTheListing(m: Headers, before: Headers)
    requires forall key :: key in m ==> H.Clean(m[key])
    ensures H.FieldMap(SortedFields(m), before) == before + m
    decreases |m|
  {
    if m == map[] {
      assert before + m == before;
    } else {
      var key := SortedFieldsFront(m);
      hide SortedFields, H.FieldMap, H.Clean, IsFirst;
      H.SentIsTaken(key, m[key]);
      FieldMapFront(H.Sent(key, m[key]), SortedFields(m - {key}), before);
      ReadingTheListing(m - {key}, before[key := m[key]]);
      MergeFront(m, before, key);
    }
  }

  lemma MergeFront(m: Headers, before: Headers, key: seq<char>)
    requires key in m
    ensures before[key := m[key]] + (m - {key}) == before + m
  {
  }

  lemma FieldMapFront(f: H.Field, rest: seq<H.Field>, before: Headers)
    ensures H.FieldMap([f] + rest, before) == H.FieldMap(rest, before[f.key := f.Taken()])
  {
    hide H.TrimLeft;
    assert ([f] + rest)[1..] == rest && ([f] + rest)[0] == f;
  }

  // ---------- reading the head of a response ----------

  /** The status line, the header map and what follows the header section. */
  datatype Head = Head(status: seq<char>, headers: Headers, rest: seq<char>)

  /** One line, then header lines up to the empty one, each found by parseLine. */
  function ReadHead(stream: seq<char>): (h: Option<Head>)
    ensures h.Some? ==> |h.value.rest| < |stream|
  {
    var scan := ScanLine(stream, 0);
    if scan.status != LineOk then None
    else
      ScanLineMeaning(stream, 0);
      var (result, c) := H.Parse(H.Context(scan.buf, scan.at, scan.at, H.Header, H.Blank));
      ParseKeepsBounds(H.Context(scan.buf, scan.at, scan.at, H.Header, H.Blank));
      if result != H.Returns(H.GET_REQUEST) || c.state != H.Content then None
      else Some(Head(scan.buf[..scan.at - 2], c.request.headers, c.buf[c.checked..]))
  }

  lemma {:induction false} ParseKeepsBounds(c: H.Context)
    requires c.Scanned()
    ensures var d := H.Parse(c).1; |d.buf| == |c.buf| && c.checked <= d.checked <= |d.buf|
    decreases |c.buf| - c.checked
  {
    hide H.TakeLine, ScanLine;
    if c.state != H.Content {
      var scan := ScanLine(c.buf, c.checked);
      if scan.status == LineOk {
        H.LineBounds(c);
        var turn := H.TakeLine(H.PastLine(c, scan), H.LineOf(c, scan));
        if turn.Go? { ParseKeepsBounds(turn.next); }
      }
    }
  }

  lemma HeadOf(status: seq<char>, fields: seq<H.Field>, tail: seq<char>)
    requires NoLineEnd(status) && forall k | 0 <= k < |fields| :: fields[k].Ok()
    ensures ReadHead(status + "\r\n" + (H.RenderFields(fields) + ("\r\n" + tail))) ==
            if H.AnyStuck(fields) then None else Some(Head(status, H.FieldMap(fields, map[]), tail))
  {
    hide H.RenderFields, H.ScannedFields, H.AnyStuck, H.FieldMap, H.Parse, ScanLine;
    var more := H.RenderFields(fields) + ("\r\n" + tail);
    var pre := status + [NUL, NUL];
    ScanRenderedLine([], status, more);
    Leading(status, "\r\n", more);
    Leading(status, [NUL, NUL], more);
    Assoc(pre, H.RenderFields(fields), "\r\n" + tail);
    assert [] + "\r\n" + tail == "\r\n" + tail;
    assert [] + status == status;
    assert (pre + more)[..|status|] == status;
    H.FieldsMean(H.Context(pre + more, |pre|, |pre|, H.Header, H.Blank), pre, fields, [], tail);
    H.BodyBehind(pre + H.ScannedFields(fields) + [] + [NUL, NUL], tail);
  }

  lemma DigitsAreClean(n: nat)
    ensures NoLineEnd(Decimal.Render(n)) && H.Clean(Decimal.Render(n))
  {
    var digits := Decimal.Render(n);
    assert forall i | 0 <= i < |digits| :: Decimal.IsDigit(digits[i]);
    hide Decimal.Render;
  }

  lemma CloseFieldIsClean()
    ensures var f := H.Sent("Connection", "close"); f.Ok() && H.WellSent(f)
  {
  }

  lemma KeepAliveFieldIsClean()
    ensures var f := H.Sent("Connection", "Keep-Alive"); f.Ok() && H.WellSent(f)
  {
  }

  lemma LengthNameIsOk()
    ensures ':' !in CONTENT_LENGTH && NoLineEnd(CONTENT_LENGTH)
  {
    forall k | 0 <= k < |CONTENT_LENGTH|
      ensures CONTENT_LENGTH[k] == '-' || CONTENT_LENGTH[k] >= 'A'
    {
    }
  }

  lemma LengthFieldIsClean(n: nat)
    ensures var f := H.Sent(CONTENT_LENGTH, Decimal.Render(n)); f.Ok() && H.WellSent(f)
  {
    DigitsAreClean(n);
    LengthNameIsOk();
    hide Decimal.Render, H.Clean, NoLineEnd;
    FieldIsOk(CONTENT_LENGTH, Decimal.Render(n));
  }

  lemma FieldIsOk(key: seq<char>, value: seq<char>)
    requires ':' !in key && NoLineEnd(key) && NoLineEnd(value)
    ensures H.Sent(key, value).Ok()
  {
    assert forall k | 1 <= k < |" " + value| :: (" " + value)[k] == value[k - 1];
  }

  lemma FramingIsClean(r: Response)
    ensures forall k | 0 <= k < |r.Framing()| :: r.Framing()[k].Ok() && H.WellSent(r.Framing()[k])
  {
    CloseFieldIsClean();
    KeepAliveFieldIsClean();
    LengthFieldIsClean(|r.body|);
    hide Decimal.Render, H.Clean, NoLineEnd;
  }

  lemma FieldsAreOk(r: Response)
    requires r.Ok()
    ensures forall k | 0 <= k < |r.Fields()| :: r.Fields()[k].Ok()
  {
    FramingIsClean(r);
    SortedFieldsListTheMap(r.headers);
    forall k | 0 <= k < |r.Fields()|
      ensures r.Fields()[k].Ok()
    {
      if k >= |r.Framing()| {
        var f := r.Fields()[k];
        assert f in SortedFields(r.headers);
        assert f == H.Sent(f.key, r.headers[f.key]);
      }
    }
  }

  lemma {:induction false} FieldMapOfBoth(a: seq<H.Field>, b: seq<H.Field>, before: Headers)
    ensures H.FieldMap(a + b, before) == H.FieldMap(b, H.FieldMap(a, before))
    decreases |a|
  {
    if a == [] {
      assert a + b == b;
    } else {
      assert (a + b)[1..] == a[1..] + b;
      FieldMapOfBoth(a[1..], b, before[a[0].key := a[0].Taken()]);
    }
  }

  /** Some value ends in white space once its front is trimmed. */
  ghost predicate AnyStuck(m: Headers) {
    exists key :: key in m && H.Stuck(H.Sent(key, m[key]).Taken())
  }

  lemma {:induction false} StuckInEither(a: seq<H.Field>, b: seq<H.Field>)
    ensures H.AnyStuck(a + b) <==> H.AnyStuck(a) || H.AnyStuck(b)
    decreases |a|
  {
    hide H.Stuck;
    if a == [] {
      assert a + b == b;
    } else {
      assert (a + b)[1..] == a[1..] + b;
      H.AnyStuckFront(a + b);
      H.AnyStuckFront(a);
      hide H.AnyStuck;
      StuckInEither(a[1..], b);
    }
  }

  lemma WellSentIsTaken(f: H.Field)
    requires H.WellSent(f)
    ensures f.Taken() == H.BareValue(f) && !H.Stuck(f.Taken())
  {
    H.SentIsTaken(f.key, H.BareValue(f));
  }

  lemma CleanIsNotStuck(fields: seq<H.Field>)
    requires forall k | 0 <= k < |fields| :: H.WellSent(fields[k])
    ensures !H.AnyStuck(fields)
  {
    hide H.WellSent, H.Stuck;
    forall k | 0 <= k < |fields|
      ensures !H.Stuck(fields[k].Taken())
    {
      WellSentIsTaken(fields[k]);
    }
  }

  lemma StuckInListing(m: Headers)
    ensures H.AnyStuck(SortedFields(m)) <==> AnyStuck(m)
  {
    SortedFieldsListTheMap(m);
    var fs := SortedFields(m);
    hide H.Stuck, H.TrimLeft, SortedFields;
    if H.AnyStuck(fs) {
      var k :| 0 <= k < |fs| && H.Stuck(fs[k].Taken());
      assert fs[k] in fs && fs[k] == H.Sent(fs[k].key, m[fs[k].key]);
    }
    if AnyStuck(m) {
      var key :| key in m && H.Stuck(H.Sent(key, m[key]).Taken());
      assert H.Sent(key, m[key]) in fs;
    }
  }

  lemma StuckOnlyInHeaders(r: Response)
    ensures H.AnyStuck(r.Fields()) <==> AnyStuck(r.headers)
  {
    hide H.AnyStuck, AnyStuck, H.Clean, SortedFields;
    FramingIsClean(r);
    CleanIsNotStuck(r.Framing());
    StuckInEither(r.Framing(), SortedFields(r.headers));
    StuckInListing(r.headers);
  }

  /**
   * Reading a printed response with anything behind it: it can be read exactly when no
   * header value ends in white space, and then the status line comes back and precisely
   * the body and what follows it is left.
   */
  lemma ResponseMeans(r: Response, more: seq<char>)
    requires r.Ok()
    ensures var h := ReadHead(r.Text() + more);
            && (h.Some? <==> !AnyStuck(r.headers))
            && (h.Some? ==> h.value.status == r.StatusLine() && h.value.rest == r.body + more
                            && h.value.headers == H.FieldMap(r.Fields(), map[]))
  {
    FieldsAreOk(r);
    StuckOnlyInHeaders(r);
    hide ReadHead, H.AnyStuck, AnyStuck, H.FieldMap, H.RenderFields, r.Fields, r.StatusLine;
    Appended(r.StatusLine(), H.RenderFields(r.Fields()), r.body, more);
    HeadOf(r.StatusLine(), r.Fields(), r.body + more);
  }

  lemma Appended(a: seq<char>, b: seq<char>, c: seq<char>, more: seq<char>)
    ensures (a + "\r\n" + (b + ("\r\n" + c))) + more == a + "\r\n" + (b + ("\r\n" + (c + more)))
  {
  }

  /** Round trip: with clean values the header map comes back too, the response's own
      headers overriding the framing fields. */
  lemma ResponseRoundTrip(r: Response, more: seq<char>)
    requires r.Ok() && r.AllClean()
    ensures ReadHead(r.Text() + more) == Some(Head(r.StatusLine(), r.ReadBack(), r.body + more))
  {
    hide ReadHead, r.Text, r.StatusLine, H.Stuck;
    ResponseMeans(r, more);
    forall key | key in r.headers
      ensures !H.Stuck(H.Sent(key, r.headers[key]).Taken())
    {
      H.SentIsTaken(key, r.headers[key]);
    }
    ReadBackMap(r);
  }

  lemma ReadBackMap(r: Response)
    requires r.AllClean()
    ensures H.FieldMap(r.Fields(), map[]) == r.ReadBack()
  {
    FramingIsClean(r);
    var framing := r.Framing();
    hide H.Clean, SortedFields, Decimal.Render;
    forall k | 0 <= k < |framing|
      ensures framing[k].Taken() == H.BareValue(framing[k])
    {
      WellSentIsTaken(framing[k]);
    }
    FieldMapOfBoth(framing, SortedFields(r.headers), map[]);
    FramingMap(r);
    ReadingTheListing(r.headers, H.FieldMap(framing, map[]));
  }

  lemma FramingMap(r: Response)
    requires forall k | 0 <= k < |r.Framing()| :: r.Framing()[k].Taken() == H.BareValue(r.Framing()[k])
    ensures H.FieldMap(r.Framing(), map[]) ==
            if r.close then map["Connection" := "close"]
            else map[CONTENT_LENGTH := Decimal.Render(|r.body|), "Connection" := "Keep-Alive"]
  {
    var framing := r.Framing();
    hide Decimal.Render, H.FieldMap;
    assert H.FieldMap([], map[]) == map[] by { EmptyFieldMap(map[]); }
    if r.close {
      assert framing == [framing[0]] + [];
      FieldMapFront(framing[0], [], map[]);
      EmptyFieldMap(map["Connection" := "close"]);
    } else {
      assert framing == [framing[0]] + [framing[1]] && [framing[1]] == [framing[1]] + [];
      FieldMapFront(framing[0], [framing[1]], map[]);
      var first := map[CONTENT_LENGTH := Decimal.Render(|r.body|)];
      FieldMapFront(framing[1], [], first);
      EmptyFieldMap(first["Connection" := "Keep-Alive"]);
    }
  }

  lemma EmptyFieldMap(before: Headers)
    ensures H.FieldMap([], before) == before
  {
  }

  /** The parts of a status line can be told apart when the first two have no spaces. */
  lemma StatusLineParts(r: Response, q: Response)
    requires ' ' !in r.version && ' ' !in r.code && ' ' !in q.version && ' ' !in q.code
    requires r.StatusLine() == q.StatusLine()
    ensures r.version == q.version && r.code == q.code && r.msg == q.msg
  {
    assert r.StatusLine() == r.version + " " + (r.code + " " + r.msg);
    assert q.StatusLine() == q.version + " " + (q.code + " " + q.msg);
    SplitAtSpace(r.version, r.code + " " + r.msg, q.version, q.code + " " + q.msg);
    SplitAtSpace(r.code, r.msg, q.code, q.msg);
  }

  lemma SplitAtSpace(a: seq<char>, b: seq<char>, c: seq<char>, d: seq<char>)
    requires ' ' !in a && ' ' !in c
    requires a + " " + b == c + " " + d
    ensures a == c && b == d
  {
    var s, t := a + " " + b, c + " " + d;
    H.FindAfter([], a, ' ', b);
    H.FindAfter([], c, ' ', d);
    assert [] + a + [' '] + b == s && [] + c + [' '] + d == t;
    assert a == s[..|a|] && c == t[..|c|];
    assert b == s[|a| + 1..] && d == t[|c| + 1..];
  }

  // ---------- a stream of responses ----------

  datatype Decoded = Decoded(status: seq<char>, headers: Headers, body: seq<char>)

  predicate IsLength(v: seq<char>, n: nat) {
    v != [] && Decimal.AllDigits(v) && Decimal.Value(v) == n
  }

  /** Reads a head and as many characters of body as its Content-Length says. */
  function DecodeOne(stream: seq<char>): (d: Option<(Decoded, seq<char>)>)
    ensures d.Some? ==> |d.value.1| < |stream|
  {
    match ReadHead(stream)
    case None => None
    case Some(h) =>
      if CONTENT_LENGTH !in h.headers then None
      else
        var v := h.headers[CONTENT_LENGTH];
        if v == [] || !Decimal.AllDigits(v) || Decimal.Value(v) > |h.rest| then None
        else
          var n := Decimal.Value(v);
          Some((Decoded(h.status, h.headers, h.rest[..n]), h.rest[n..]))
  }

  function DecodeAll(stream: seq<char>): Option<seq<Decoded>>
    decreases |stream|
  {
    if stream == [] then Some([])
    else
      match DecodeOne(stream)
      case None => None
      case Some((d, rest)) =>
        match DecodeAll(rest)
        case None => None
        case Some(ds) => Some([d] + ds)
  }

  /** The length a reader sees is the body's: the response is kept alive and its headers do
      not say otherwise, or they say the right length themselves. */
  predicate Framed(r: Response) {
    if CONTENT_LENGTH in r.headers then IsLength(r.headers[CONTENT_LENGTH], |r.body|) else !r.close
  }

  function AsDecoded(r: Response): Decoded {
    Decoded(r.StatusLine(), r.ReadBack(), r.body)
  }

  lemma RenderIsLength(n: nat)
    ensures IsLength(Decimal.Render(n), n)
  {
    Decimal.ValueOfRender(n);
  }

  lemma LengthReadBack(r: Response)
    ensures CONTENT_LENGTH in r.ReadBack() <==> !r.close || CONTENT_LENGTH in r.headers
    ensures CONTENT_LENGTH in r.headers ==> r.ReadBack()[CONTENT_LENGTH] == r.headers[CONTENT_LENGTH]
    ensures !r.close && CONTENT_LENGTH !in r.headers ==> r.ReadBack()[CONTENT_LENGTH] == Decimal.Render(|r.body|)
    ensures Framed(r) <==> CONTENT_LENGTH in r.ReadBack() && IsLength(r.ReadBack()[CONTENT_LENGTH], |r.body|)
  {
    hide Decimal.Render, Decimal.Value, Decimal.AllDigits, IsLength;
    RenderIsLength(|r.body|);
    assert CONTENT_LENGTH != "Connection";
  }

  /**
   * Cutting a response off the front of a stream by Content-Length gives back its status
   * line, header map and body, and leaves what follows it, exactly when it is framed: so
   * for every keep-alive response whose own headers leave Content-Length alone.
   */
  lemma DecodeOneMeans(r: Response, more: seq<char>)
    requires r.Ok() && r.AllClean()
    ensures DecodeOne(r.Text() + more) == Some((AsDecoded(r), more)) <==> Framed(r)
  {
    ResponseRoundTrip(r, more);
    LengthReadBack(r);
    hide ReadHead, Framed, Decimal.Render, Decimal.Value, Decimal.AllDigits;
    hide r.Text, r.StatusLine, r.ReadBack, r.Ok, r.AllClean;
    CutBody(r.body, more);
  }

  lemma CutBody(body: seq<char>, more: seq<char>)
    ensures forall n: nat | n <= |body + more| :: ((body + more)[..n] == body <==> n == |body|)
    ensures (body + more)[|body|..] == more
  {
    assert (body + more)[..|body|] == body;
  }

  ghost function Stream(rs: seq<Response>): seq<char> {
    if rs == [] then [] else rs[0].Text() + Stream(rs[1..])
  }

  function AllDecoded(rs: seq<Response>): seq<Decoded> {
    if rs == [] then [] else [AsDecoded(rs[0])] + AllDecoded(rs[1..])
  }

  ghost predicate Sendable(r: Response) {
    r.Ok() && r.AllClean() && Framed(r)
  }

  /** Any number of framed responses sent one after another decode into exactly themselves. */
  lemma {:induction false} StreamRoundTrip(rs: seq<Response>)
    requires forall i :: 0 <= i < |rs| ==> Sendable(rs[i])
    ensures DecodeAll(Stream(rs)) == Some(AllDecoded(rs))
    decreases |rs|
  {
    if rs != [] {
      assert Sendable(rs[0]);
      DecodeOneMeans(rs[0], Stream(rs[1..]));
      TextIsNotEmpty(rs[0]);
      hide DecodeOne, AsDecoded, Sendable, Framed;
      StreamRoundTrip(rs[1..]);
    }
  }

  lemma TextIsNotEmpty(r: Response)
    ensures r.Text() != []
  {
    hide H.RenderFields, Decimal.Render, SortedFields;
  }

  /** So a stream determines the responses in it, as far as a reader can see them. */
  lemma StreamsAreUnambiguous(rs: seq<Response>, qs: seq<Response>)
    requires forall i :: 0 <= i < |rs| ==> Sendable(rs[i])
    requires forall i :: 0 <= i < |qs| ==> Sendable(qs[i])
    requires Stream(rs) == Stream(qs)
    ensures AllDecoded(rs) == AllDecoded(qs)
  {
    hide Sendable, Stream, DecodeAll, AllDecoded;
    StreamRoundTrip(rs);
    StreamRoundTrip(qs);
  }
}
