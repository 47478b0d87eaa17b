/** The response writer as it is written: an object whose methods update its fields and append to
    its buffered writer, proved against the functions of `Writing`. I/O errors are not modelled. */
module ResponseWriters {
  import opened Bytes
  import opened Numerals
  import opened Grammar
  import opened Wire
  import opened Writing

  class ResponseWriter {
    const env: Env
    var statusCode: nat
    var header: Headers
    var trailer: Headers
    var hijacked: bool
    var headerSent: bool
    var chunked: bool
    var pending: bytes
    /** All that was written to the buffered writer. */
    var out: bytes

    ghost function Abs(): (w: Writer)
      reads this
    {
      Writer(statusCode, header, trailer, hijacked, headerSent, chunked, pending, out)
    }

    constructor (env: Env)
      ensures Abs() == NEW && this.env == env
    {
      this.env := env;
      statusCode, header, trailer := 200, map[], map[];
      hijacked, headerSent, chunked := false, false, false;
      pending, out := [], [];
    }

    method WriteHeaderLine(name: bytes, value: bytes)
      modifies this`out
      ensures out == old(out) + (LineText(Header(name, value)) + CRLF)
    {
      out := out + (name + [COLON, SP] + value + CRLF);
    }

    /** http.Header.Write: the values of the listed keys, cleaned. */
    method WriteHeaderMap(h: Headers)
      modifies this`out
      ensures out == old(out) + HeadersText(Listed(env, h))
    {
      var ks := env.order(h);
      ghost var start, all := out, HeadersText(Listed(env, h));
      EmptyAppend(out);
      for i := 0 to |ks|
        invariant start + all == out + HeadersText(ListKeys(env, h, ks[i..]))
      {
        var vs := if ks[i] in h then h[ks[i]] else [];
        ghost var rest := ListKeys(env, h, ks[i + 1..]);
        assert ks[i..][1..] == ks[i + 1..];
        for j := 0 to |vs|
          invariant start + all == out + HeadersText(LinesOf(env, ks[i], vs[j..]) + rest)
        {
          ghost var x, more := Header(ks[i], env.clean(vs[j])), LinesOf(env, ks[i], vs[j + 1..]) + rest;
          assert vs[j..][1..] == vs[j + 1..];
          FirstLine(x, LinesOf(env, ks[i], vs[j + 1..]), rest, out);
          WriteHeaderLine(ks[i], env.clean(vs[j]));
        }
        EmptyAppend(rest);
      }
      EmptyAppend(out);
    }

    /** ensureHeaderSent for a 200 response that needs no header map: the head written directly. */
    method SendDirect(contentLength: bytes, contentType: bytes)
      modifies this`out, this`chunked, this`headerSent
      ensures !chunked && headerSent
      ensures out == old(out) + HeadText(200, OK, [Header(DATE, env.date)]
                + (if contentType == [] then [] else [Header(CONTENT_TYPE, contentType)]) + [Header(CONTENT_LENGTH, contentLength)])
    {
      ghost var start, hs := out, [Header(DATE, env.date)];
      out := out + (StatusLine(200, OK) + CRLF);
      WriteHeaderLine(DATE, env.date);
      OneHeader(hs[0]);
      if contentType != [] {
        WriteHeaderLine(CONTENT_TYPE, contentType);
        OneMore(start + (StatusLine(200, OK) + CRLF), hs, Header(CONTENT_TYPE, contentType));
        hs := hs + [Header(CONTENT_TYPE, contentType)];
      }
      WriteHeaderLine(CONTENT_LENGTH, contentLength);
      OneMore(start + (StatusLine(200, OK) + CRLF), hs, Header(CONTENT_LENGTH, contentLength));
      hs := hs + [Header(CONTENT_LENGTH, contentLength)];
      out := out + CRLF;
      chunked, headerSent := false, true;
      HeadDone(start, 200, OK, hs);
    }

    /** The status line and all headers, for any other response. */
    method SendGeneral(text: bytes)
      requires !headerSent
      modifies this`out, this`chunked, this`headerSent
      ensures headerSent && chunked == (First(header, CONTENT_LENGTH) == [] || trailer != map[])
      ensures out == old(out) + HeadText(statusCode, text, HeadLines(env, old(Abs()), chunked))
    {
      ghost var start, hs := out, [];
      out := out + (StatusLine(statusCode, text) + CRLF);
      ghost var line := out;
      EmptyAppend(out);
      if First(header, DATE) == [] {
        WriteHeaderLine(DATE, env.date);
        OneHeader(Header(DATE, env.date));
        hs := [Header(DATE, env.date)];
      }
      chunked := First(header, CONTENT_LENGTH) == [] || trailer != map[];
      WriteHeaderMap(header);
      HeadersTextAppend(hs, Listed(env, header));
      Assoc(line, HeadersText(hs), HeadersText(Listed(env, header)));
      hs := hs + Listed(env, header);
      if chunked && First(header, TRANSFER_ENCODING) == [] {
        var coding := if trailer == map[] then CHUNKED else CHUNKED_TRAILERS;
        WriteHeaderLine(TRANSFER_ENCODING, coding);
        OneMore(line, hs, Header(TRANSFER_ENCODING, coding));
        hs := hs + [Header(TRANSFER_ENCODING, coding)];
      } else {
        EmptyAppend(hs);
      }
      out := out + CRLF;
      headerSent := true;
      HeadDone(start, statusCode, text, hs);
    }

    /** ensureHeaderSent. */
    method EnsureHeaderSent()
      modifies this`out, this`chunked, this`headerSent
      ensures Abs() == SendHead(env, old(Abs()))
    {
      if headerSent {
        return;
      }
      var contentLength, contentType := First(header, CONTENT_LENGTH), First(header, CONTENT_TYPE);
      if statusCode == 200 && trailer == map[] && First(header, DATE) == [] && First(header, TRANSFER_ENCODING) == []
         && contentLength != [] && |header| <= 2 && (|header| == 1 || (|header| == 2 && contentType != [])) {
        SendDirect(contentLength, contentType);
        return;
      }
      var text := env.statusText(statusCode);
      if text == [] {
        text := STATUS_CODE + Print(10, statusCode);
      }
      SendGeneral(text);
    }

    /** Body bytes, framed as the head announced. */
    method WriteBody(p: bytes)
      modifies this`out
      ensures Abs() == Emit(old(Abs()), p)
    {
      if chunked {
        out := out + (Print(16, |p|) + CRLF + p + CRLF);
      } else {
        out := out + p;
      }
    }

    method SniffContentType(p: bytes)
      modifies this`header
      ensures Abs() == Sniffed(env, old(Abs()), p)
    {
      if First(header, CONTENT_TYPE) == [] {
        var sniffLen := if |p| < 512 then |p| else 512;
        header := header[CONTENT_TYPE := [env.sniff(p[..sniffLen])]];
      }
    }

    method Write(p: bytes) returns (n: nat, refused: bool)
      modifies this
      ensures Abs() == DoWrite(env, old(Abs()), p)
      ensures old(hijacked) ==> Abs() == old(Abs())
      ensures refused == old(hijacked) && n == if refused then 0 else |p|
    {
      if hijacked {
        return 0, true;
      }
      if p == [] {
        return 0, false;
      }
      if !headerSent {
        SniffContentType(p);
        if First(header, CONTENT_LENGTH) == [] && First(header, TRANSFER_ENCODING) == [] && trailer == map[] {
          if pending == [] {
            pending := p;
            return |p|, false;
          }
          EnsureHeaderSent();
          WriteBody(pending);
          pending := [];
        } else {
          EnsureHeaderSent();
        }
      }
      WriteBody(p);
      return |p|, false;
    }

    method WriteString(s: bytes) returns (n: nat, refused: bool)
      modifies this
      ensures Abs() == DoWriteString(env, old(Abs()), s)
      ensures old(hijacked) ==> Abs() == old(Abs())
      ensures refused == old(hijacked) && n == if refused then 0 else |s|
    {
      if hijacked {
        return 0, true;
      }
      if s == [] {
        return 0, false;
      }
      if !headerSent {
        SniffContentType(s);
        EnsureHeaderSent();
      }
      WriteBody(s);
      return |s|, false;
    }

    /** ReadFrom, `parts` being what successive reads return. */
    method ReadFrom(parts: seq<bytes>) returns (n: nat, refused: bool)
      modifies this
      ensures Abs() == DoReadFrom(env, old(Abs()), parts)
      ensures old(hijacked) ==> Abs() == old(Abs())
      ensures refused == old(hijacked) && n == if refused then 0 else |Concat(parts)|
    {
      if hijacked {
        return 0, true;
      }
      if !headerSent {
        EnsureHeaderSent();
      }
      n := 0;
      ghost var w := Abs();
      for i := 0 to |parts|
        invariant EmitReads(w, parts) == EmitReads(Abs(), parts[i..]) && !hijacked
        invariant n + |Concat(parts[i..])| == |Concat(parts)|
      {
        assert parts[i..][1..] == parts[i + 1..];
        if parts[i] != [] {
          WriteBody(parts[i]);
          n := n + |parts[i]|;
        }
      }
      return n, false;
    }

    method WriteHeader(code: nat)
      modifies this`statusCode
      ensures Abs() == DoWriteHeader(old(Abs()), code)
      ensures old(hijacked) || old(headerSent) ==> Abs() == old(Abs())
    {
      if hijacked || headerSent {
        return;
      }
      statusCode := code;
    }

    method Flush()
      modifies this
      ensures Abs() == DoFlush(env, old(Abs()))
      ensures old(hijacked) ==> Abs() == old(Abs())
    {
      if hijacked || headerSent {
        return;
      }
      if pending != [] && First(header, CONTENT_LENGTH) == [] {
        EnsureHeaderSent();
        WriteBody(pending);
        pending := [];
      } else {
        EnsureHeaderSent();
      }
    }

    /** What closes a chunked body. */
    method EndChunks()
      requires chunked
      modifies this`out
      ensures out == old(out) + Ending(env, old(Abs()))
    {
      if trailer != map[] {
        out := out + ([48] + CRLF);
        WriteHeaderMap(trailer);
        out := out + CRLF;
      } else {
        out := out + LAST_CHUNK;
      }
    }

    method EndResponse()
      modifies this
      ensures Abs() == DoEnd(env, old(Abs()))
      ensures old(hijacked) ==> Abs() == old(Abs())
    {
      if hijacked {
        return;
      }
      if !headerSent {
        if First(header, CONTENT_LENGTH) == [] {
          header := header[CONTENT_LENGTH := [Print(10, |pending|)]];
        }
        EnsureHeaderSent();
      }
      EmptyAppend(out);
      if pending != [] {
        out := out + pending;
        pending := [];
      }
      EmptyAppend(out);
      if chunked {
        EndChunks();
      }
    }
  }

  lemma FirstLine(x: Header, a: seq<Header>, b: seq<Header>, out: bytes)
    ensures out + HeadersText([x] + a + b) == out + (LineText(x) + CRLF) + HeadersText(a + b)
  {
    assert ([x] + a + b)[1..] == a + b;
  }

  lemma HeadDone(start: bytes, code: nat, text: bytes, hs: seq<Header>)
    ensures start + (StatusLine(code, text) + CRLF) + HeadersText(hs) + CRLF == start + HeadText(code, text, hs)
  {
    var line, t := StatusLine(code, text) + CRLF, HeadersText(hs);
    Assoc(start + line, t, CRLF);
    Assoc(start, line, t + CRLF);
  }
}
