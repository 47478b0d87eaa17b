/** Framing is unique: an accepted message is never a proper prefix of another one, so a byte
    stream splits into accepted messages in at most one way. */
module UniqueFraming {
  import opened Bytes
  import opened Grammar
  import opened Reference

  ghost predicate Accepts(g: LineGrammar, kind: Kind, m: bytes) {
    ParseMessage(g, kind, m).Accepted?
  }

  /** Bytes after a finished header section do not change how it is read. */
  lemma {:induction false} HeadersKept(g: LineGrammar, meta: Meta, s: bytes, t: bytes, p: nat)
    requires p <= |s| && ParseHeaders(g, meta, s, p).HeadDone?
    ensures ParseHeaders(g, meta, s + t, p) == ParseHeaders(g, meta, s, p)
    decreases |s| - p
  {
    if s[p] != CR {
      var i := CrlfFrom(s, p).value;
      CrlfKept(s, t, p);
      SliceAppend(s, t, p, i);
      var meta' := ApplyHeader(meta, g.header(s[p..i]).value).value;
      HeadersKept(g, meta', s, t, i + 2);
    }
  }

  lemma ChunkKept(g: LineGrammar, s: bytes, t: bytes, p: nat)
    requires p <= |s| && TakeChunk(g, s, p).Some?
    ensures TakeChunk(g, s + t, p) == TakeChunk(g, s, p)
  {
    var i := CrlfFrom(s, p).value;
    CrlfKept(s, t, p);
    SliceAppend(s, t, p, i);
    var size := g.size(s[p..i]).value;
    SliceAppend(s, t, i + 2, i + 2 + size);
  }

  /** Bytes after a finished chunked body do not change how it is read. */
  lemma {:induction false} ChunksKept(g: LineGrammar, s: bytes, t: bytes, p: nat)
    requires p <= |s| && ParseChunks(g, s, p).Some?
    ensures ParseChunks(g, s + t, p) == ParseChunks(g, s, p)
    decreases |s| - p
  {
    ChunkKept(g, s, t, p);
    if TakeChunk(g, s, p).value.Data? {
      ChunksKept(g, s, t, TakeChunk(g, s, p).value.next);
    }
  }

  lemma BodyKept(g: LineGrammar, meta: Meta, s: bytes, t: bytes, p: nat)
    requires p <= |s| && ParseBody(g, meta, s, p).BodyDone?
    ensures ParseBody(g, meta, s + t, p) == ParseBody(g, meta, s, p)
  {
    match BodyMode(meta)
    case LengthBody => SliceAppend(s, t, p, p + meta.length);
    case ChunkedBody => ChunksKept(g, s, t, p);
    case _ =>
  }

  /** Any byte added behind an accepted message makes the buffer incomplete. */
  lemma AcceptedIsMaximal(g: LineGrammar, kind: Kind, m: bytes, t: bytes)
    requires Accepts(g, kind, m) && t != []
    ensures ParseMessage(g, kind, m + t) == Incomplete
  {
    var i := CrlfFrom(m, 0).value;
    CrlfKept(m, t, 0);
    TakeAppend(m, t, i);
    var meta := StartMeta(ParseStart(g, kind, m[..i]).value);
    HeadersKept(g, meta, m, t, i + 2);
    var head := ParseHeaders(g, meta, m, i + 2);
    BodyKept(g, head.meta, m, t, head.next);
  }

  lemma PrefixFree(g: LineGrammar, kind: Kind, m: bytes, n: bytes)
    requires Accepts(g, kind, m) && Accepts(g, kind, n) && m <= n
    ensures m == n
  {
    var t := n[|m|..];
    assert n == m + t;
    if t != [] {
      AcceptedIsMaximal(g, kind, m, t);
    }
  }

  lemma AcceptedNonEmpty(g: LineGrammar, kind: Kind, m: bytes)
    requires Accepts(g, kind, m)
    ensures 4 <= |m|
  {
    assert CrlfFrom(m, 0).Some?;
  }

  /** A concatenation of accepted messages determines the messages. */
  lemma {:induction false} UniqueSplit(g: LineGrammar, kind: Kind, ms: seq<bytes>, ns: seq<bytes>)
    requires forall m | m in ms :: Accepts(g, kind, m)
    requires forall n | n in ns :: Accepts(g, kind, n)
    requires Concat(ms) == Concat(ns)
    ensures ms == ns
    decreases |ms|
  {
    if ms == [] {
      if ns != [] {
        AcceptedNonEmpty(g, kind, ns[0]);
      }
    } else if ns == [] {
      AcceptedNonEmpty(g, kind, ms[0]);
    } else {
      var all := Concat(ms);
      assert all == ms[0] + Concat(ms[1..]) && all == ns[0] + Concat(ns[1..]);
      assert ms[0] == all[..|ms[0]|] && ns[0] == all[..|ns[0]|];
      if |ms[0]| <= |ns[0]| {
        assert ms[0] <= ns[0];
        PrefixFree(g, kind, ms[0], ns[0]);
      } else {
        assert ns[0] <= ms[0];
        PrefixFree(g, kind, ns[0], ms[0]);
      }
      assert Concat(ms[1..]) == all[|ms[0]|..] == Concat(ns[1..]);
      UniqueSplit(g, kind, ms[1..], ns[1..]);
    }
  }

  // --------------------------------------------------- prefixes of accepted messages

  lemma SliceOfPrefix(s: bytes, p: nat, i: nat, k: nat)
    requires p <= i <= k <= |s|
    ensures s[..k][p..i] == s[p..i]
  {
  }

  /** A prefix holds the whole header section, or it is incomplete. */
  lemma {:induction false} HeadersPrefix(g: LineGrammar, meta: Meta, m: bytes, p: nat, k: nat)
    requires p <= k <= |m| && ParseHeaders(g, meta, m, p).HeadDone?
    ensures ParseHeaders(g, meta, m[..k], p) == if ParseHeaders(g, meta, m, p).next <= k then ParseHeaders(g, meta, m, p) else HeadIncomplete
    decreases |m| - p
  {
    if p + 2 <= k && m[p] != CR {
      var i := CrlfFrom(m, p).value;
      CrlfPrefix(m, p, k);
      if i + 2 <= k {
        SliceOfPrefix(m, p, i, k);
        HeadersPrefix(g, ApplyHeader(meta, g.header(m[p..i]).value).value, m, i + 2, k);
      }
    }
  }

  lemma ChunksPrefix(g: LineGrammar, m: bytes, p: nat, k: nat)
    requires p <= k < |m| && ParseChunks(g, m, p).Some? && ParseChunks(g, m, p).value.next == |m|
    ensures ParseChunks(g, m[..k], p).None?
  {
    assert m[..k] + m[k..] == m;
    if ParseChunks(g, m[..k], p).Some? {
      ChunksKept(g, m[..k], m[k..], p);
    }
  }

  lemma BodyPrefix(g: LineGrammar, meta: Meta, m: bytes, p: nat, k: nat)
    requires p <= k < |m| && ParseBody(g, meta, m, p).BodyDone? && ParseBody(g, meta, m, p).next == |m|
    ensures ParseBody(g, meta, m[..k], p) == BodyIncomplete
  {
    if BodyMode(meta) == ChunkedBody {
      ChunksPrefix(g, m, p, k);
    }
  }

  /** Every proper prefix of an accepted message is incomplete: never accepted, never rejected. */
  lemma PrefixIncomplete(g: LineGrammar, kind: Kind, m: bytes, k: nat)
    requires Accepts(g, kind, m) && k < |m|
    ensures ParseMessage(g, kind, m[..k]) == Incomplete
  {
    var i := CrlfFrom(m, 0).value;
    CrlfPrefix(m, 0, k);
    if i + 2 <= k {
      assert m[..k][..i] == m[..i];
      var meta := StartMeta(ParseStart(g, kind, m[..i]).value);
      HeadersPrefix(g, meta, m, i + 2, k);
      var head := ParseHeaders(g, meta, m, i + 2);
      if head.next <= k {
        BodyPrefix(g, head.meta, m, head.next, k);
      }
    }
  }
}
