/** The line scanner shared by HttpConn::parseLine and HttpContext::parseLine. */
module Lines {

  const NUL := '\0'

  datatype LineStatus = LineOk | LineBad | LineOpen

  /** The scanner's result: its status, the buffer with the line end it found
      overwritten by NULs, and the next unscanned position. */
  datatype Scan = Scan(status: LineStatus, buf: seq<char>, at: nat)

  /** parseLine on a buffer of |buf| received characters, from checkedIdx `at`. */
  function ScanLine(buf: seq<char>, at: nat): (r: Scan)
    requires at <= |buf|
    ensures |r.buf| == |buf| && at <= r.at <= |buf|
    ensures r.status == LineOk ==> at < r.at && r.buf[r.at..] == buf[r.at..]
    ensures r.status != LineOk ==> r.buf == buf
    decreases |buf| - at
  {
    if at == |buf| then Scan(LineOpen, buf, at)
    else if buf[at] == '\r' then
      if at + 1 == |buf| then Scan(LineOpen, buf, at)
      else if buf[at + 1] == '\n' then Scan(LineOk, buf[at := NUL][at + 1 := NUL], at + 2)
      else Scan(LineBad, buf, at)
    else if buf[at] == '\n' then
      if at > 1 && buf[at - 1] == '\r' then Scan(LineOk, buf[at - 1 := NUL][at := NUL], at + 1)
      else Scan(LineBad, buf, at)
    else ScanLine(buf, at + 1)
  }

  /** The position of the first CR or LF at or after `at`, or |buf|. */
  function LineEnd(buf: seq<char>, at: nat): (e: nat)
    requires at <= |buf|
    ensures at <= e <= |buf|
    ensures e < |buf| ==> buf[e] == '\r' || buf[e] == '\n'
    ensures forall k | at <= k < e :: buf[k] != '\r' && buf[k] != '\n'
    decreases |buf| - at
  {
    if at == |buf| || buf[at] == '\r' || buf[at] == '\n' then at else LineEnd(buf, at + 1)
  }

  /** What the scan `r` from a line that ends at `e` has to be. */
  ghost predicate IsScanTo(buf: seq<char>, e: nat, r: Scan)
    requires e <= |buf|
  {
    && (r.status == LineOk <==> e + 1 < |buf| && buf[e] == '\r' && buf[e + 1] == '\n')
    && (r.status == LineBad <==> e < |buf| && (buf[e] == '\n' || (e + 1 < |buf| && buf[e + 1] != '\n')))
    && (r.status == LineOk ==> r == Scan(LineOk, buf[..e] + [NUL, NUL] + buf[e + 2..], e + 2))
    && (r.status != LineOk ==> r == Scan(r.status, buf, e))
    && (0 < r.at <= |r.buf| ==> r.buf[r.at - 1] != '\r')
  }

  lemma ScanAtEnd(buf: seq<char>, at: nat)
    requires at <= |buf| && (at > 0 ==> buf[at - 1] != '\r')
    requires at < |buf| ==> buf[at] == '\r' || buf[at] == '\n'
    ensures LineEnd(buf, at) == at && IsScanTo(buf, at, ScanLine(buf, at))
  {
    if at + 1 < |buf| { EraseTwo(buf, at); }
  }

  /** What the scanner does, said without scanning: a line is complete exactly when
      its first CR or LF is a CR followed by LF, those two become NULs and nothing
      else changes; it is bad exactly when that first character is anything else
      that cannot grow into CR LF. The branch for LF after CR never succeeds,
      because the scanner never moves past a CR that it leaves in the buffer. */
  lemma {:induction false} ScanLineMeaning(buf: seq<char>, at: nat)
    requires at <= |buf| && (at > 0 ==> buf[at - 1] != '\r')
    ensures var r, e := ScanLine(buf, at), LineEnd(buf, at);
            && (r.status == LineOk <==> e + 1 < |buf| && buf[e] == '\r' && buf[e + 1] == '\n')
            && (r.status == LineBad <==> e < |buf| && (buf[e] == '\n' || (e + 1 < |buf| && buf[e + 1] != '\n')))
            && (r.status == LineOk ==> r == Scan(LineOk, buf[..e] + [NUL, NUL] + buf[e + 2..], e + 2))
            && (r.status != LineOk ==> r == Scan(r.status, buf, e))
            && (r.at > 0 ==> r.buf[r.at - 1] != '\r')
  {
    ScanReachesEnd(buf, at);
    hide ScanLine, LineEnd;
  }

  lemma {:induction false} ScanReachesEnd(buf: seq<char>, at: nat)
    requires at <= |buf| && (at > 0 ==> buf[at - 1] != '\r')
    ensures IsScanTo(buf, LineEnd(buf, at), ScanLine(buf, at))
    decreases |buf| - at
  {
    hide IsScanTo;
    if at < |buf| && buf[at] != '\r' && buf[at] != '\n' {
      ScanReachesEnd(buf, at + 1);
    } else {
      ScanAtEnd(buf, at);
    }
  }

  lemma EraseTwo(buf: seq<char>, e: nat)
    requires e + 1 < |buf|
    ensures buf[e := NUL][e + 1 := NUL] == buf[..e] + [NUL, NUL] + buf[e + 2..]
  {
  }

  /** Later input cannot change a scan that has found a line end, and a scan left
      open picks up where it stopped. */
  lemma {:induction false} ScanLineResumes(buf: seq<char>, at: nat, more: seq<char>)
    requires at <= |buf|
    ensures var r := ScanLine(buf, at);
            && (r.status != LineOpen ==> ScanLine(buf + more, at) == r.(buf := r.buf + more))
            && (r.status != LineOk ==> ScanLine(buf + more, at) == ScanLine(r.buf + more, r.at))
    decreases |buf| - at
  {
    if at < |buf| {
      assert (buf + more)[at] == buf[at];
      if buf[at] == '\r' {
        if at + 1 < |buf| && buf[at + 1] == '\n' {
          assert (buf + more)[at := NUL][at + 1 := NUL] == buf[at := NUL][at + 1 := NUL] + more;
        }
      } else if buf[at] == '\n' {
        if at > 1 && buf[at - 1] == '\r' {
          assert (buf + more)[at - 1 := NUL][at := NUL] == buf[at - 1 := NUL][at := NUL] + more;
        }
      } else {
        ScanLineResumes(buf, at + 1, more);
      }
    }
  }

  predicate NoLineEnd(s: seq<char>) {
    forall k | 0 <= k < |s| :: s[k] != '\r' && s[k] != '\n'
  }

  /** Scanning a CR LF terminated line out of the middle of a buffer. */
  lemma {:induction false} ScanRenderedLine(pre: seq<char>, line: seq<char>, rest: seq<char>)
    requires NoLineEnd(line) && (pre != [] ==> pre[|pre| - 1] != '\r')
    ensures ScanLine(pre + line + "\r\n" + rest, |pre|)
         == Scan(LineOk, pre + line + [NUL, NUL] + rest, |pre| + |line| + 2)
  {
    var buf := pre + line + "\r\n" + rest;
    var m := |pre| + |line|;
    assert buf[m] == '\r' && buf[m + 1] == '\n';
    forall k | |pre| <= k < m
      ensures buf[k] != '\r' && buf[k] != '\n'
    {
      assert buf[k] == line[k - |pre|];
    }
    LineEndAt(buf, |pre|, m);
    assert pre != [] ==> buf[|pre| - 1] == pre[|pre| - 1];
    ScanLineMeaning(buf, |pre|);
    assert buf[..m] == pre + line;
    assert buf[m + 2..] == rest;
  }

  /** A buffer cut at a line end. */
  lemma CutAtLine(buf: seq<char>, at: nat, e: nat)
    requires at <= e && e + 1 < |buf| && buf[e] == '\r' && buf[e + 1] == '\n'
    ensures buf == buf[..at] + buf[at..e] + "\r\n" + buf[e + 2..]
    ensures buf[..e] + [NUL, NUL] + buf[e + 2..] == buf[..at] + buf[at..e] + [NUL, NUL] + buf[e + 2..]
  {
    assert buf[..e] == buf[..at] + buf[at..e];
  }

  /** The converse: where the scanner has found a line, a line stood with its CR LF. */
  lemma LineFound(buf: seq<char>, at: nat) returns (line: seq<char>, rest: seq<char>)
    requires at <= |buf| && (at > 0 ==> buf[at - 1] != '\r') && ScanLine(buf, at).status == LineOk
    ensures NoLineEnd(line) && buf == buf[..at] + line + "\r\n" + rest
    ensures ScanLine(buf, at) == Scan(LineOk, buf[..at] + line + [NUL, NUL] + rest, at + |line| + 2)
  {
    ScanLineMeaning(buf, at);
    var e := LineEnd(buf, at);
    line, rest := buf[at..e], buf[e + 2..];
    hide ScanLine, LineEnd;
    CutAtLine(buf, at, e);
    LineBefore(buf, at, e);
  }

  lemma LineBefore(buf: seq<char>, at: nat, e: nat)
    requires at <= e <= |buf| && forall k | at <= k < e :: buf[k] != '\r' && buf[k] != '\n'
    ensures NoLineEnd(buf[at..e])
  {
  }

  lemma LineEndAt(buf: seq<char>, at: nat, m: nat)
    requires at <= m < |buf| && (buf[m] == '\r' || buf[m] == '\n')
    requires forall k | at <= k < m :: buf[k] != '\r' && buf[k] != '\n'
    ensures LineEnd(buf, at) == m
  {
    assert LineEnd(buf, at) <= m;
  }

  /** parseLine in place: scans buf[checkedIdx..readIdx] and leaves the rest of the
      array alone. */
  method ParseLine(buf: array<char>, readIdx: nat, checkedIdx: nat) returns (status: LineStatus, checked: nat)
    requires checkedIdx <= readIdx <= buf.Length
    modifies buf
    ensures Scan(status, buf[..readIdx], checked) == ScanLine(old(buf[..readIdx]), checkedIdx)
    ensures buf[readIdx..] == old(buf[readIdx..])
  {
    checked := checkedIdx;
    ghost var s := buf[..readIdx];
    while checked < readIdx
      invariant checkedIdx <= checked <= readIdx
      invariant buf[..] == old(buf[..])
      invariant ScanLine(s, checkedIdx) == ScanLine(s, checked)
    {
      var tmp := buf[checked];
      if tmp == '\r' {
        if checked + 1 == readIdx {
          return LineOpen, checked;
        } else if buf[checked + 1] == '\n' {
          buf[checked] := NUL;
          buf[checked + 1] := NUL;
          assert buf[..readIdx] == s[checked := NUL][checked + 1 := NUL];
          checked := checked + 2;
          return LineOk, checked;
        }
        return LineBad, checked;
      } else if tmp == '\n' {
        if checked > 1 && buf[checked - 1] == '\r' {
          buf[checked - 1] := NUL;
          buf[checked] := NUL;
          assert buf[..readIdx] == s[checked - 1 := NUL][checked := NUL];
          checked := checked + 1;
          return LineOk, checked;
        }
        return LineBad, checked;
      }
      checked := checked + 1;
    }
    return LineOpen, checked;
  }

  // ---------- putting pieces of text together ----------

  lemma Regroup(pre: seq<char>, line: seq<char>, mid: seq<char>, a: seq<char>, b: seq<char>)
    ensures pre + (line + mid + a) + b == (pre + line + mid) + (a + b) == (pre + line + mid) + a + b
  {
    assert pre + (line + mid + a) + b == (pre + line + mid) + (a + b);
    assert (pre + line + mid) + (a + b) == (pre + line + mid) + a + b;
  }

  lemma Assoc(a: seq<char>, b: seq<char>, c: seq<char>)
    ensures a + (b + c) == a + b + c
  {
  }

  lemma Leading(a: seq<char>, b: seq<char>, c: seq<char>)
    ensures [] + a + b + c == a + b + c
  {
  }
}
