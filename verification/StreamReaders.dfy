/** ReadRequest as it is written, over a buffered reader of any size that gets its input in pieces of
    any size: it reads what `KeepAlive.ReadRequest` says, whatever the sizes. */
module StreamReaders {
  import opened Bytes
  import opened Grammar
  import opened KeepAlive

  datatype Slice = Found(part: bytes) | Full(part: bytes) | Ended

  /** A buffered reader: of `input`, the bytes before `taken` have been fetched from the connection and
      those before `pos` have been read; what lies between is in the buffer of `size` bytes. */
  class StreamReader {
    const input: bytes
    const size: nat
    /** How much the connection delivers when asked for the n-th time. */
    const delivers: nat -> nat
    var taken: nat
    var pos: nat
    var asked: nat

    ghost predicate Valid()
      reads this
    {
      0 < size && pos <= taken <= |input| && taken - pos <= size && forall n :: 0 < delivers(n)
    }

    constructor (input: bytes, size: nat, delivers: nat -> nat)
      requires 0 < size && forall n :: 0 < delivers(n)
      ensures Valid() && this.input == input && pos == 0
    {
      this.input, this.size, this.delivers := input, size, delivers;
      taken, pos, asked := 0, 0, 0;
    }

    /** One read from the connection into the free part of the buffer. */
    method Fill()
      requires Valid() && taken < |input| && taken - pos < size
      modifies this`taken, this`asked
      ensures Valid() && old(taken) < taken
    {
      var n := delivers(asked);
      asked := asked + 1;
      if n > size - (taken - pos) {
        n := size - (taken - pos);
      }
      if n > |input| - taken {
        n := |input| - taken;
      }
      taken := taken + n;
    }

    /** ReadSlice of bufio.Reader for LF: the bytes up to the next LF, or a full buffer without one, or
        the end of the input. */
    method ReadSlice() returns (r: Slice)
      requires Valid()
      modifies this
      ensures Valid()
      ensures match r
              case Found(part) =>
                LfFrom(input, old(pos)).Some? && pos == LfFrom(input, old(pos)).value + 1 && part == input[old(pos)..pos]
              case Full(part) =>
                old(pos) < pos && part == input[old(pos)..pos] && forall k | old(pos) <= k < pos :: input[k] != LF
              case Ended => LfFrom(input, old(pos)).None?
    {
      var scanned := pos;
      while true
        invariant Valid() && pos == old(pos) && pos <= scanned <= taken
        invariant forall k | pos <= k < scanned :: input[k] != LF
        decreases |input| - taken, taken - scanned
      {
        if scanned < taken {
          if input[scanned] == LF {
            LfIs(input, pos, scanned);
            var part := input[pos..scanned + 1];
            pos := scanned + 1;
            return Found(part);
          }
          scanned := scanned + 1;
        } else if taken - pos >= size {
          var part := input[pos..taken];
          pos := taken;
          return Full(part);
        } else if taken == |input| {
          pos := taken;
          return Ended;
        } else {
          Fill();
        }
      }
    }

    /** readCRLFLine: slices are joined until one ends in LF. */
    method ReadCrlfLine() returns (r: LineResult)
      requires Valid()
      modifies this
      ensures Valid() && r == LineAt(input, old(pos))
      ensures r.Line? ==> pos == r.next
    {
      var line: bytes := [];
      ghost var start := pos;
      while true
        invariant Valid() && start <= pos && line == input[start..pos]
        invariant forall k | start <= k < pos :: input[k] != LF
        decreases |input| - pos
      {
        ghost var p := pos;
        var s := ReadSlice();
        LfLater(input, start, p);
        match s
        case Ended =>
          return NoLine(ErrEof);
        case Full(part) =>
          JoinSlices(input, start, p, pos);
          line := line + part;
        case Found(part) =>
          JoinSlices(input, start, p, pos);
          r := TrimLine(line + part, pos);
          return;
      }
    }

    /** The header loop of ReadRequest. */
    method ReadHeaderLines(g: LineGrammar, start: Meta) returns (r: HeadRead)
      requires Valid()
      modifies this
      ensures Valid() && r == ReadHeaders(g, start, input, old(pos))
      ensures r.HeadGot? ==> pos == r.next
    {
      ghost var spec := ReadHeaders(g, start, input, pos);
      var meta := start;
      var hs: seq<Header> := [];
      WithNone(spec);
      while true
        invariant Valid() && spec == WithLines(hs, ReadHeaders(g, meta, input, pos))
        decreases |input| - pos
      {
        var line := ReadCrlfLine();
        if line.NoLine? {
          return HeadBad(line.err);
        }
        if line.text == [] {
          EmptyAppend(hs);
          return HeadGot(meta, hs, pos);
        }
        var h := g.header(line.text);
        if h.None? {
          return HeadBad(ErrHeaderOverflow);
        }
        var meta' := ApplyHeader(meta, h.value);
        if meta'.None? {
          return HeadBad(SemanticError(meta));
        }
        WithOne(hs, h.value, ReadHeaders(g, meta'.value, input, pos));
        hs, meta := hs + [h.value], meta'.value;
      }
    }

    /** ReadRequest, without its header map. */
    method ReadRequestHead(env: Env) returns (r: Reading)
      requires Valid()
      modifies this
      ensures Valid() && r == ReadRequest(env, input, old(pos))
      ensures r.Got? ==> pos == r.req.next
    {
      var line := ReadCrlfLine();
      if line.NoLine? {
        return Bad(line.err);
      }
      var l := env.lines.request(line.text);
      if l.None? {
        return Bad(ErrReqMethod);
      }
      if !env.urlOk(l.value.verb, l.value.target) {
        return Bad(ErrUrl);
      }
      var head := ReadHeaderLines(env.lines, Meta(Request, 0, false, 0, false));
      if head.HeadBad? {
        return Bad(head.err);
      }
      return Got(Incoming(l.value, head.headers, head.meta, pos));
    }

    /** trimCRLFLine. */
    static method TrimLine(line: bytes, next: nat) returns (r: LineResult)
      ensures r == if |line| < 2 || line[|line| - 2] != CR || line[|line| - 1] != LF then NoLine(ErrNoEndLF)
                   else if |line| - 2 > MAX_LINE then NoLine(ErrHeaderOverflow)
                   else Line(line[..|line| - 2], next)
    {
      if |line| < 2 || line[|line| - 2] != CR || line[|line| - 1] != LF {
        return NoLine(ErrNoEndLF);
      }
      if |line| - 2 > MAX_LINE {
        return NoLine(ErrHeaderOverflow);
      }
      return Line(line[..|line| - 2], next);
    }
  }

  function WithLines(hs: seq<Header>, r: HeadRead): (r': HeadRead) {
    if r.HeadGot? then r.(headers := hs + r.headers) else r
  }

  lemma WithNone(r: HeadRead)
    ensures WithLines([], r) == r
  {
    if r.HeadGot? {
      EmptyAppend(r.headers);
    }
  }

  lemma WithOne(hs: seq<Header>, h: Header, r: HeadRead)
    ensures WithLines(hs, WithLines([h], r)) == WithLines(hs + [h], r)
  {
    if r.HeadGot? {
      Assoc(hs, [h], r.headers);
    }
  }

  lemma JoinSlices(s: bytes, a: nat, b: nat, c: nat)
    requires a <= b <= c <= |s|
    ensures s[a..b] + s[b..c] == s[a..c]
  {
  }

  /** Without an LF in between, the next LF is the same one. */
  lemma LfLater(s: bytes, a: nat, b: nat)
    requires a <= b <= |s| && forall k | a <= k < b :: s[k] != LF
    ensures LfFrom(s, a) == LfFrom(s, b)
  {
    match LfFrom(s, b)
    case Some(j) => LfIs(s, a, j);
    case None =>
  }
}
