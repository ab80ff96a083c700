/** HttpResponse as the object it is; module HttpResponseSpec says what it prints. */
module HttpResponses {
  import Decimal
  import H = HttpContextSpec
  import S = HttpResponseSpec

  class HttpResponse {
    var version: seq<char>
    var responseCode: seq<char>
    var responseMsg: seq<char>
    var body: seq<char>
    var headers: map<seq<char>, seq<char>>
    var closeConnection: bool

    constructor (close: bool)
      ensures View() == S.Response([], [], [], [], map[], close)
    {
      version, responseCode, responseMsg, body, headers := [], [], [], [], map[];
      closeConnection := close;
    }

    function View(): S.Response
      reads this
    {
      S.Response(version, responseCode, responseMsg, body, headers, closeConnection)
    }

    /** Whoever reads the response back then finds this value under this name, in place of an
        earlier one or of a framing field, and all else as before. */
    method AddHeader(key: seq<char>, value: seq<char>)
      modifies this`headers
      ensures View() == old(View()).(headers := old(headers)[key := value])
      ensures View().ReadBack() == old(View().ReadBack())[key := value]
    {
      headers := headers[key := value];
    }

    /** Replaces all headers that were added before. */
    method AddHeaders(m: map<seq<char>, seq<char>>)
      modifies this`headers
      ensures View() == old(View()).(headers := m)
    {
      headers := m;
    }

    /** Appends the printed response; the header map is walked in the order of its keys. */
    method ToString(response: seq<char>) returns (out: seq<char>)
      ensures out == response + View().Text()
    {
      hide S.Precedes, Decimal.Render;
      out := response + (version + " " + responseCode + " " + responseMsg + "\r\n");
      out := FramingLines(out);
      out := HeaderLines(out);
      out := out + "\r\n";
      out := out + body;
      PartsOfText(response, View());
    }

    method FramingLines(before: seq<char>) returns (out: seq<char>)
      ensures out == before + H.RenderFields(View().Framing())
    {
      out := before;
      if closeConnection {
        out := out + "Connection: close\r\n";
      } else {
        out := out + ("Content-Length: " + Decimal.Render(|body|) + "\r\n");
        out := out + "Connection: Keep-Alive\r\n";
      }
      FramingText(before, View());
    }

    method HeaderLines(before: seq<char>) returns (out: seq<char>)
      ensures out == before + H.RenderFields(S.SortedFields(headers))
    {
      out := before;
      var rest := headers;
      while rest != map[]
        invariant rest.Keys <= headers.Keys && forall k :: k in rest ==> rest[k] == headers[k]
        invariant out + H.RenderFields(S.SortedFields(rest)) == before + H.RenderFields(S.SortedFields(headers))
        decreases |rest|
      {
        ghost var first := S.SortedFieldsFront(rest);
        var key :| S.IsFirst(key, rest.Keys);
        S.FirstKeyIs(rest.Keys, key);
        S.FirstKeyIs(rest.Keys, first);
        HeaderText(out, key, rest);
        out := out + key;
        out := out + ": ";
        out := out + rest[key];
        out := out + "\r\n";
        rest := rest - {key};
      }
    }
  }

  lemma HeaderText(out: seq<char>, key: seq<char>, m: map<seq<char>, seq<char>>)
    requires S.IsFirst(key, m.Keys)
    requires S.SortedFields(m) == [H.Sent(key, m[key])] + S.SortedFields(m - {key})
    ensures out + key + ": " + m[key] + "\r\n" + H.RenderFields(S.SortedFields(m - {key}))
         == out + H.RenderFields(S.SortedFields(m))
  {
    assert key in m;
    hide S.SortedFields, S.IsFirst;
    RenderFront(H.Sent(key, m[key]), S.SortedFields(m - {key}));
    Regrouped(out, key, m[key], H.RenderFields(S.SortedFields(m - {key})));
  }

  lemma Regrouped(out: seq<char>, key: seq<char>, value: seq<char>, rest: seq<char>)
    ensures out + key + ": " + value + "\r\n" + rest == out + ((key + ": " + value) + "\r\n" + rest)
  {
  }

  lemma RenderFront(f: H.Field, rest: seq<H.Field>)
    ensures H.RenderFields([f] + rest) == f.Text() + "\r\n" + H.RenderFields(rest)
  {
    assert ([f] + rest)[1..] == rest && ([f] + rest)[0] == f;
  }

  lemma {:induction false} RenderBoth(a: seq<H.Field>, b: seq<H.Field>)
    ensures H.RenderFields(a + b) == H.RenderFields(a) + H.RenderFields(b)
    decreases |a|
  {
    if a == [] {
      assert a + b == b;
    } else {
      assert a == [a[0]] + a[1..] && a + b == [a[0]] + (a[1..] + b);
      RenderFront(a[0], a[1..]);
      RenderFront(a[0], a[1..] + b);
      hide H.RenderFields;
      RenderBoth(a[1..], b);
      Joined(a[0].Text(), H.RenderFields(a[1..]), H.RenderFields(b));
    }
  }

  lemma Joined(a: seq<char>, b: seq<char>, c: seq<char>)
    ensures a + "\r\n" + (b + c) == (a + "\r\n" + b) + c
  {
  }

  lemma RenderNone()
    ensures H.RenderFields([]) == []
  {
  }

  lemma CloseText(f: H.Field)
    requires f == H.Sent("Connection", "close")
    ensures f.Text() + "\r\n" == "Connection: close\r\n"
  {
  }

  lemma KeepAliveText(f: H.Field)
    requires f == H.Sent("Connection", "Keep-Alive")
    ensures f.Text() + "\r\n" == "Connection: Keep-Alive\r\n"
  {
  }

  lemma RenderOne(f: H.Field)
    ensures H.RenderFields([f]) == f.Text() + "\r\n"
  {
    assert [f][1..] == [];
    RenderNone();
  }

  lemma FramingText(before: seq<char>, r: S.Response)
    ensures r.close ==> before + "Connection: close\r\n" == before + H.RenderFields(r.Framing())
    ensures !r.close ==>
              before + ("Content-Length: " + Decimal.Render(|r.body|) + "\r\n") + "Connection: Keep-Alive\r\n"
              == before + H.RenderFields(r.Framing())
  {
    hide H.RenderFields, Decimal.Render, H.Field.Text;
    var f := r.Framing();
    if r.close {
      RenderOne(f[0]);
      CloseText(f[0]);
    } else {
      assert f == [f[0]] + [f[1]];
      RenderFront(f[0], [f[1]]);
      RenderOne(f[1]);
      KeepAliveText(f[1]);
      LengthText(before, Decimal.Render(|r.body|), "Connection: Keep-Alive\r\n");
    }
  }

  lemma LengthText(before: seq<char>, digits: seq<char>, rest: seq<char>)
    ensures before + ("Content-Length: " + digits + "\r\n") + rest
         == before + (H.Sent(S.CONTENT_LENGTH, digits).Text() + "\r\n" + rest)
  {
  }

  lemma PartsOfText(response: seq<char>, r: S.Response)
    ensures response + (r.version + " " + r.code + " " + r.msg + "\r\n")
            + H.RenderFields(r.Framing()) + H.RenderFields(S.SortedFields(r.headers)) + "\r\n" + r.body
         == response + r.Text()
  {
    hide S.SortedFields, H.RenderFields, r.Framing;
    RenderBoth(r.Framing(), S.SortedFields(r.headers));
    Assembled(response, r.StatusLine(), H.RenderFields(r.Framing()), H.RenderFields(S.SortedFields(r.headers)), r.body);
  }

  lemma Assembled(response: seq<char>, status: seq<char>, a: seq<char>, b: seq<char>, body: seq<char>)
    ensures response + (status + "\r\n") + a + b + "\r\n" + body
         == response + (status + "\r\n" + ((a + b) + ("\r\n" + body)))
  {
  }
}
