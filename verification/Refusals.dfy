/** What ReadRequest (internal/parser/request.go) refuses, against what the resumable machine refuses. */
module Refusals {
  import opened Bytes
  import opened Grammar
  import opened KeepAlive
  import opened Failures

  /** Mistakes of the head that do not depend on how lines are read. */
  predicate OfHead(e: Err) { e == ErrReqMethod || e == ErrDuplicateLength || e == ErrInvalidLength }

  /** Header lines that are refused for what they say are a mistake for both. */
  lemma {:induction false} HeadersRefused(g: LineGrammar, meta: Meta, s: bytes, p: nat)
    requires p <= |s|
    ensures var r := ReadHeaders(g, meta, s, p);
            && (r.HeadBad? && OfHead(r.err) ==> HeadMistake(g, meta, s, p) == Some(r.err))
            && (r.HeadGot? ==> HeadMistake(g, meta, s, p) == if r.meta.chunked then ChunkMistake(g, s, r.next) else None)
    decreases |s| - p
  {
    if LineAt(s, p).Line? {
      var t, next := LineAt(s, p).text, LineAt(s, p).next;
      LineIsCrlfLine(s, p);
      if t != [] && g.header(t).Some? && ApplyHeader(meta, g.header(t).value).Some? {
        HeadersRefused(g, ApplyHeader(meta, g.header(t).value).value, s, next);
      }
    }
  }

  /** The header lines behind a good request line. */
  lemma HeadRefused(env: Env, s: bytes, p: nat, next: nat)
    requires p <= |s| && CrlfFrom(s, p) == Some(next - 2) && next <= |s| && env.lines.request(s[p..next - 2]).Some?
    ensures var r := ReadHeaders(env.lines, Meta(Request, 0, false, 0, false), s, next);
            && (r.HeadBad? && OfHead(r.err) ==> Mistake(env.lines, s, p) == Some(r.err))
            && (r.HeadGot? ==> Mistake(env.lines, s, p) == if r.meta.chunked then ChunkMistake(env.lines, s, r.next) else None)
            && r != HeadBad(ErrUrl)
  {
    HeadersRefused(env.lines, Meta(Request, 0, false, 0, false), s, next);
    HeadersHaveNoUrl(env.lines, Meta(Request, 0, false, 0, false), s, next);
  }

  /** What ReadRequest refuses for its request line or its Content-Length, the machine refuses too, with the same error;
      where ReadRequest returns a request, the machine finds no mistake in its head; and the URL error means a request
      line that is good but for its target. */
  lemma RefusesAlike(env: Env, s: bytes, p: nat)
    requires p <= |s|
    ensures var r := ReadRequest(env, s, p);
            && (r.Bad? && OfHead(r.err) ==> Mistake(env.lines, s, p) == Some(r.err))
            && (r.Got? ==> Mistake(env.lines, s, p) == if r.req.meta.chunked then ChunkMistake(env.lines, s, r.req.next) else None)
            && (r == Bad(ErrUrl) ==> LineAt(s, p).Line? && TargetRefused(env, LineAt(s, p).text))
  {
    if LineAt(s, p).Line? {
      LineIsCrlfLine(s, p);
      if env.lines.request(LineAt(s, p).text).Some? {
        HeadRefused(env, s, p, LineAt(s, p).next);
      }
    }
  }

  predicate TargetRefused(env: Env, line: bytes) {
    env.lines.request(line).Some? && !env.urlOk(env.lines.request(line).value.verb, env.lines.request(line).value.target)
  }

  lemma {:induction false} HeadersHaveNoUrl(g: LineGrammar, meta: Meta, s: bytes, p: nat)
    requires p <= |s|
    ensures ReadHeaders(g, meta, s, p) != HeadBad(ErrUrl)
    decreases |s| - p
  {
    if LineAt(s, p).Line? {
      var t := LineAt(s, p).text;
      if t != [] && g.header(t).Some? && ApplyHeader(meta, g.header(t).value).Some? {
        HeadersHaveNoUrl(g, ApplyHeader(meta, g.header(t).value).value, s, LineAt(s, p).next);
      }
    }
  }
}
