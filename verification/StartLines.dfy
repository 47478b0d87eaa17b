/** Request lines, status lines and header lines as they are written, and that the line parsers of
    internal/parser read exactly these. */
module StartLines {
  import opened Bytes
  import opened Numerals
  import opened Grammar

  // -------------------------------------------------------------------------- methods

  /** What Method.String gives for the numbers from 1 on. */
  const NAMES: seq<string> := [
    "GET", "HEAD", "POST", "PUT", "DELETE", "CONNECT", "OPTIONS", "TRACE", "ACL", "BIND", "COPY",
    "CHECKOUT", "LOCK", "UNLOCK", "LINK", "MKCOL", "MOVE", "MKACTIVITY", "MERGE", "M-SEARCH",
    "MKCALENDAR", "NOTIFY", "PROPFIND", "PROPPATCH", "PATCH", "PURGE", "REPORT", "REBIND",
    "SUBSCRIBE", "SEARCH", "SOURCE", "UNSUBSCRIBE", "UNBIND", "UNLINK"
  ]

  function MethodName(n: nat): (s: string) {
    if 0 < n <= |NAMES| then NAMES[n - 1] else "UNKNOWN"
  }

  /** The bytes are the characters, but for the case of letters. */
  predicate SpeltAs(b: bytes, s: string) {
    |b| == |s| && forall i | 0 <= i < |b| :: Lower(b[i]) as int == SmallCode(s[i])
  }

  function SmallCode(c: char): (n: int) {
    if 'A' <= c <= 'Z' then c as int + 32 else c as int
  }

  /** A token of the table and a name say the same. */
  predicate Names(t: string, s: string) {
    |t| == |s| && forall i | 0 <= i < |t| :: t[i] as int == SmallCode(s[i])
  }

  lemma NamesTable(n: nat)
    requires n < 34
    ensures |NAMES| == |METHODS| == 34 && Names(METHODS[n], NAMES[n])
  {
    if n < 9 {
      NamesTo9(n);
    } else if n < 18 {
      NamesTo18(n);
    } else if n < 26 {
      NamesTo26(n);
    } else {
      NamesTo34(n);
    }
  }

  lemma NamesTo9(n: nat)
    requires n < 9
    ensures Names(METHODS[n], NAMES[n])
  {
  }

  lemma NamesTo18(n: nat)
    requires 9 <= n < 18
    ensures Names(METHODS[n], NAMES[n])
  {
  }

  lemma NamesTo26(n: nat)
    requires 18 <= n < 26
    ensures Names(METHODS[n], NAMES[n])
  {
  }

  lemma NamesTo34(n: nat)
    requires 26 <= n < 34
    ensures Names(METHODS[n], NAMES[n])
  {
  }

  lemma TokensDiffer(i: nat, j: nat)
    requires i < j < |METHODS|
    ensures METHODS[i] != METHODS[j]
  {
  }

  lemma TokensHaveNoSpace(i: nat)
    requires i < |METHODS|
    ensures ' ' !in METHODS[i]
  {
  }

  lemma FoldDetermines(b: bytes, s: string, t: string)
    requires EqualFold(b, s) && EqualFold(b, t)
    ensures s == t
  {
    forall i | 0 <= i < |s| ensures s[i] == t[i] { assert Lower(b[i]) as int == s[i] as int; }
  }

  /** The lookup finds the only place at which its token stands. */
  lemma {:induction false} MatchFinds(b: bytes, table: seq<string>, i: nat, n: nat)
    requires i <= n < |table| && EqualFold(b, table[n]) && forall j | i <= j < n :: table[j] != table[n]
    ensures MatchFrom(b, table, i) == Some(n + 1)
    decreases |table| - i
  {
    if i < n {
      if EqualFold(b, table[i]) {
        FoldDetermines(b, table[i], table[n]);
      }
      MatchFinds(b, table, i + 1, n);
    }
  }

  ghost predicate Distinct(table: seq<string>) {
    forall i, j | 0 <= i < j < |table| :: table[i] != table[j]
  }

  lemma MatchExactly(b: bytes, table: seq<string>, names: seq<string>, n: nat)
    requires Distinct(table) && 0 < n <= |table| == |names| && Names(table[n - 1], names[n - 1])
    ensures MatchFrom(b, table, 0) == Some(n) <==> SpeltAs(b, names[n - 1])
  {
    FoldAsSpelt(b, table[n - 1], names[n - 1]);
    if SpeltAs(b, names[n - 1]) {
      MatchFinds(b, table, 0, n - 1);
    }
  }

  lemma FoldAsSpelt(b: bytes, t: string, s: string)
    requires Names(t, s)
    ensures EqualFold(b, t) <==> SpeltAs(b, s)
  {
  }

  lemma TokensDistinct()
    ensures Distinct(METHODS)
  {
    forall i, j | 0 <= i < j < |METHODS| ensures METHODS[i] != METHODS[j] { TokensDiffer(i, j); }
  }

  /** The token is spelt, in any case, as the name of method number `n`. */
  predicate IsMethod(b: bytes, n: nat) {
    0 < n <= |NAMES| && SpeltAs(b, MethodName(n))
  }

  /** A token is read as method number `n` exactly when it is spelt as that method's name. */
  lemma MethodExactly(b: bytes, n: nat)
    ensures MatchMethod(b) == Some(n) <==> IsMethod(b, n)
  {
    NamesTable(0);
    if 0 < n <= |NAMES| {
      NamesTable(n - 1);
      TokensDistinct();
      MatchExactly(b, METHODS, NAMES, n);
    }
  }

  lemma MethodHasNoSpace(b: bytes)
    requires MatchMethod(b).Some?
    ensures SP !in b
  {
    var n := MatchMethod(b).value;
    TokensHaveNoSpace(n - 1);
    assert EqualFold(b, METHODS[n - 1]);
    forall i | 0 <= i < |b| ensures b[i] != SP {
      assert Lower(b[i]) as int == METHODS[n - 1][i] as int;
      assert METHODS[n - 1][i] in METHODS[n - 1];
    }
  }

  // -------------------------------------------------------------------- request lines

  /** "HTTP/" and two digits with a dot between them. */
  function VersionText(major: nat, minor: nat): (t: bytes)
    requires major < 10 && minor < 10
  {
    [72, 84, 84, 80, SLASH, (48 + major) as byte, DOT, (48 + minor) as byte]
  }

  function RequestLineText(token: bytes, target: bytes, major: nat, minor: nat): (t: bytes)
    requires major < 10 && minor < 10
  {
    token + [SP] + target + [SP] + VersionText(major, minor)
  }

  predicate Digital(v: Version) { 0 <= v.major < 10 && 0 <= v.minor < 10 }

  /** A version at `p` is one that is written there. */
  lemma VersionStands(t: bytes, p: nat, v: Version)
    requires p + 8 <= |t|
    ensures HttpAt(t, p) && VersionAt(t, p + 5) == Some(v) <==> Digital(v) && t[p..p + 8] == VersionText(v.major, v.minor)
  {
    var u := t[p..p + 8];
    forall i | 0 <= i < 8 ensures u[i] == t[p + i] {}
    if Digital(v) && u == VersionText(v.major, v.minor) {
      VersionBytes(u, v);
    }
  }

  lemma VersionBytes(u: bytes, v: Version)
    requires Digital(v) && u == VersionText(v.major, v.minor)
    ensures u[0] == 72 && u[1] == 84 && u[2] == 84 && u[3] == 80 && u[4] == SLASH
    ensures u[5] as int == 48 + v.major && u[6] == DOT && u[7] as int == 48 + v.minor
  {
  }

  /** Where the parts of such a line stand. */
  lemma PartsOf(token: bytes, target: bytes, v: bytes, t: bytes)
    requires t == token + [SP] + target + [SP] + v
    ensures |t| == |token| + |target| + |v| + 2 && t[|token|] == SP && t[|token| + 1 + |target|] == SP
    ensures t[..|token|] == token && t[|token| + 1..|token| + 1 + |target|] == target && t[|token| + |target| + 2..] == v
  {
  }

  /** The places of the two spaces. */
  lemma SpacesOf(t: bytes, n: nat, k: nat)
    requires n < k < |t| && t[n] == SP && t[k] == SP && SP !in t[..n] && SP !in t[n + 1..k]
    ensures FindByte(t, SP) == Some(n) && ByteFrom(t, SP, n + 1) == Some(k)
  {
    forall i | 0 <= i < n ensures t[i] != SP { assert t[i] == t[..n][i]; }
    forall i | n + 1 <= i < k ensures t[i] != SP { assert t[i] == t[n + 1..k][i - n - 1]; }
    ByteIs(t, SP, n);
    ByteFromIs(t, SP, n + 1, k);
  }

  lemma {:induction false} ByteFromIs(s: bytes, b: byte, i: nat, k: nat)
    requires i <= k < |s| && s[k] == b && forall j | i <= j < k :: s[j] != b
    ensures ByteFrom(s, b, i) == Some(k)
    decreases k - i
  {
    if i < k {
      ByteFromIs(s, b, i + 1, k);
    }
  }

  /** What is written is read: every method name in any case, every target without a space, every version
      of two digits. */
  lemma RequestLineReads(token: bytes, n: nat, target: bytes, major: nat, minor: nat)
    requires IsMethod(token, n) && SP !in target && major < 10 && minor < 10
    ensures ParseRequestLine(RequestLineText(token, target, major, minor)) == Some(RequestLine(n, target, Version(major, minor)))
  {
    MethodExactly(token, n);
    MethodHasNoSpace(token);
    RequestLineFrom(token, target, VersionText(major, minor), n, Version(major, minor), RequestLineText(token, target, major, minor));
  }

  lemma RequestLineFrom(token: bytes, target: bytes, v: bytes, n: nat, version: Version, t: bytes)
    requires MatchMethod(token) == Some(n) && SP !in token && SP !in target && |v| == 8 && t == token + [SP] + target + [SP] + v
    requires Digital(version) && v == VersionText(version.major, version.minor)
    ensures ParseRequestLine(t) == Some(RequestLine(n, target, version))
  {
    VersionLast(token, target, v, version, t);
    RequestLineWith(token, target, v, n, version, t);
  }

  lemma VersionLast(token: bytes, target: bytes, v: bytes, version: Version, t: bytes)
    requires |v| == 8 && t == token + [SP] + target + [SP] + v && Digital(version) && v == VersionText(version.major, version.minor)
    ensures var p := |token| + |target| + 2; HttpAt(t, p) && VersionAt(t, p + 5) == Some(version)
  {
    PartsOf(token, target, v, t);
    EndsInVersion(t, |token| + |target| + 2, v, version);
  }

  lemma RequestLineWith(token: bytes, target: bytes, v: bytes, n: nat, version: Version, t: bytes)
    requires MatchMethod(token) == Some(n) && SP !in token && SP !in target && |v| == 8 && t == token + [SP] + target + [SP] + v
    requires var p := |token| + |target| + 2; HttpAt(t, p) && VersionAt(t, p + 5) == Some(version)
    ensures ParseRequestLine(t) == Some(RequestLine(n, target, version))
  {
    PartsOf(token, target, v, t);
    RequestLineOf(t, |token|, |token| + |target| + 1, n, version);
  }

  lemma EndsInVersion(t: bytes, p: nat, v: bytes, version: Version)
    requires p + 8 == |t| && t[p..] == v && Digital(version) && v == VersionText(version.major, version.minor)
    ensures HttpAt(t, p) && VersionAt(t, p + 5) == Some(version)
  {
    LastEight(t, p);
    VersionStands(t, p, version);
  }

  lemma LastEight(t: bytes, p: nat)
    requires p + 8 == |t|
    ensures t[p..p + 8] == t[p..]
  {
  }

  lemma RequestLineOf(t: bytes, first: nat, second: nat, n: nat, v: Version)
    requires first < second && second + 9 == |t| && t[first] == SP && t[second] == SP && SP !in t[..first] && SP !in t[first + 1..second]
    requires MatchMethod(t[..first]) == Some(n) && HttpAt(t, second + 1) && VersionAt(t, second + 6) == Some(v)
    ensures ParseRequestLine(t) == Some(RequestLine(n, t[first + 1..second], v))
  {
    SpacesOf(t, first, second);
  }

  /** And nothing else is. */
  lemma RequestLineWritten(line: bytes) returns (token: bytes)
    requires ParseRequestLine(line).Some?
    ensures var l := ParseRequestLine(line).value;
            && IsMethod(token, l.verb) && SP !in l.target && Digital(l.version)
            && line == RequestLineText(token, l.target, l.version.major, l.version.minor)
  {
    var first, second := RequestLinePlaces(line);
    var l := ParseRequestLine(line).value;
    token := line[..first];
    MethodExactly(token, l.verb);
    TextFrom(line, first, second, l.version);
  }

  lemma TextFrom(line: bytes, first: nat, second: nat, v: Version)
    requires first < second && second + 9 == |line| && line[first] == SP && line[second] == SP
    requires HttpAt(line, second + 1) && VersionAt(line, second + 6) == Some(v)
    ensures Digital(v) && line == RequestLineText(line[..first], line[first + 1..second], v.major, v.minor)
  {
    LastEight(line, second + 1);
    VersionStands(line, second + 1, v);
    CutAt(line, first, second);
  }

  lemma RequestLinePlaces(line: bytes) returns (first: nat, second: nat)
    requires ParseRequestLine(line).Some?
    ensures var l := ParseRequestLine(line).value;
            && first < second && second + 9 == |line| && line[first] == SP && line[second] == SP && SP !in l.target
            && MatchMethod(line[..first]) == Some(l.verb) && l.target == line[first + 1..second]
            && HttpAt(line, second + 1) && VersionAt(line, second + 6) == Some(l.version)
  {
    first := FindByte(line, SP).value;
    second := ByteFrom(line, SP, first + 1).value;
  }

  lemma CutAt(line: bytes, first: nat, second: nat)
    requires first < second < |line| && line[first] == SP && line[second] == SP
    ensures line == line[..first] + [SP] + line[first + 1..second] + [SP] + line[second + 1..]
  {
  }

  /** A line is read as a request line exactly when it is written as one. */
  lemma RequestLineExactly(line: bytes, l: RequestLine)
    ensures ParseRequestLine(line) == Some(l) <==>
            && SP !in l.target && Digital(l.version)
            && exists token: bytes :: IsMethod(token, l.verb) && line == RequestLineText(token, l.target, l.version.major, l.version.minor)
  {
    if ParseRequestLine(line) == Some(l) {
      var token := RequestLineWritten(line);
    }
    if SP !in l.target && Digital(l.version) {
      if token: bytes :| IsMethod(token, l.verb) && line == RequestLineText(token, l.target, l.version.major, l.version.minor) {
        RequestLineReads(token, l.verb, l.target, l.version.major, l.version.minor);
      }
    }
  }

  // --------------------------------------------------------------------- status lines

  /** Three digits. */
  datatype Code = Code(a: nat, b: nat, c: nat)

  predicate Proper(d: Code) { d.a < 10 && d.b < 10 && d.c < 10 }

  function Value(d: Code): (n: nat) { 100 * d.a + 10 * d.b + d.c }

  function CodeText(d: Code): (t: bytes)
    requires Proper(d)
  {
    [(48 + d.a) as byte, (48 + d.b) as byte, (48 + d.c) as byte]
  }

  function StatusLineText(v: Version, code: Code, rest: bytes): (t: bytes)
    requires Digital(v) && Proper(code)
  {
    VersionText(v.major, v.minor) + [SP] + CodeText(code) + rest
  }

  /** What follows the status, and the reason in it: whatever is behind one byte. */
  function ReasonOf(rest: bytes): (r: bytes) {
    if rest == [] then [] else rest[1..]
  }

  lemma ThreeDigitsDenote(t: bytes)
    requires |t| == 3 && Digits(10, t)
    ensures Numeral(10, t) == Value(Code(HexVal(t[0]), HexVal(t[1]), HexVal(t[2])))
  {
    var a, b, c := HexVal(t[0]), HexVal(t[1]), HexVal(t[2]);
    assert NumeralUpTo(10, t, 1) == a && NumeralUpTo(10, t, 2) == a * 10 + b;
  }

  lemma CodeDenotes(t: bytes, d: Code)
    requires |t| == 3 && Proper(d) && t == CodeText(d)
    ensures ParseNumeral(10, t) == Some(Value(d))
  {
    assert HexVal(t[0]) == d.a && HexVal(t[1]) == d.b && HexVal(t[2]) == d.c;
    ThreeDigitsDenote(t);
    Int32Exact(Value(d));
  }

  lemma CodeRead(t: bytes) returns (d: Code)
    requires |t| == 3 && ParseNumeral(10, t).Some?
    ensures Proper(d) && t == CodeText(d) && ParseNumeral(10, t).value == Value(d)
  {
    d := Code(HexVal(t[0]), HexVal(t[1]), HexVal(t[2]));
    ThreeDigitsDenote(t);
    Int32Exact(Value(d));
  }

  /** A line is read as a status line exactly when it is written as one: any version, three digits, and behind
      them nothing or any byte and the reason. */
  lemma ResponseLineExactly(line: bytes, l: ResponseLine)
    ensures ParseResponseLine(line) == Some(l) <==>
            && Digital(l.version)
            && exists d: Code, rest: bytes ::
                 Proper(d) && Value(d) == l.status && ReasonOf(rest) == l.reason && line == StatusLineText(l.version, d, rest)
  {
    if ParseResponseLine(line) == Some(l) {
      var d := ResponseLineWritten(line, l);
    }
    if Digital(l.version) {
      if d: Code, rest: bytes :| Proper(d) && Value(d) == l.status && ReasonOf(rest) == l.reason && line == StatusLineText(l.version, d, rest) {
        ResponseLineReads(l.version, d, rest, line);
      }
    }
  }

  /** Where the parts of such a line stand. */
  lemma StatusParts(v: bytes, d: bytes, rest: bytes, t: bytes)
    requires |v| == 8 && |d| == 3 && t == v + [SP] + d + rest
    ensures |t| == 12 + |rest| && t[0..8] == v && t[8] == SP && t[9..12] == d && t[12..] == rest
  {
  }

  lemma ReasonStands(t: bytes)
    requires |t| >= 12
    ensures ReasonOf(t[12..]) == if |t| > 13 then t[13..] else []
  {
  }

  lemma ResponseLineOf(t: bytes, v: Version, code: nat)
    requires |t| >= 12 && t[8] == SP && HttpAt(t, 0) && VersionAt(t, 5) == Some(v) && ParseNumeral(10, t[9..12]) == Some(code) && code < 1000
    ensures ParseResponseLine(t) == Some(ResponseLine(v, code, ReasonOf(t[12..])))
  {
    ReasonStands(t);
  }

  lemma ResponseLineReads(v: Version, d: Code, rest: bytes, t: bytes)
    requires Digital(v) && Proper(d) && t == StatusLineText(v, d, rest)
    ensures ParseResponseLine(t) == Some(ResponseLine(v, Value(d), ReasonOf(rest)))
  {
    StatusParts(VersionText(v.major, v.minor), CodeText(d), rest, t);
    VersionStands(t, 0, v);
    CodeDenotes(t[9..12], d);
    ResponseLineOf(t, v, Value(d));
  }

  lemma ResponseLinePlaces(line: bytes, l: ResponseLine)
    requires ParseResponseLine(line) == Some(l)
    ensures |line| >= 12 && ParseNumeral(10, line[9..12]).Some? && HttpAt(line, 0) && line[8] == SP && VersionAt(line, 5) == Some(l.version)
    ensures l.status == ParseNumeral(10, line[9..12]).value % 0x1_0000 && l.reason == ReasonOf(line[12..])
  {
    ReasonStands(line);
  }

  lemma ResponseLineWritten(line: bytes, l: ResponseLine) returns (d: Code)
    requires ParseResponseLine(line) == Some(l)
    ensures Digital(l.version) && Proper(d) && |line| >= 12 && l.reason == ReasonOf(line[12..]) && l.status == Value(d)
    ensures line == StatusLineText(l.version, d, line[12..])
  {
    ResponseLinePlaces(line, l);
    d := CodeRead(line[9..12]);
    StatusFrom(line, l.version, d);
  }

  lemma StatusFrom(line: bytes, v: Version, d: Code)
    requires |line| >= 12 && Proper(d) && HttpAt(line, 0) && VersionAt(line, 5) == Some(v) && line[8] == SP && line[9..12] == CodeText(d)
    ensures Digital(v) && line == StatusLineText(v, d, line[12..])
  {
    VersionStands(line, 0, v);
    LineInFour(line);
  }

  lemma LineInFour(t: bytes)
    requires |t| >= 12
    ensures t == t[0..8] + [t[8]] + t[9..12] + t[12..]
  {
  }

  // --------------------------------------------------------------------- header lines

  predicate Spaces(s: bytes) { forall i | 0 <= i < |s| :: IsSpace(s[i]) }

  /** A line is read as a header exactly when it is a name without a colon, a colon, spaces or tabs, and a value
      that begins with neither. */
  lemma HeaderLineExactly(line: bytes, h: Header)
    ensures ParseHeaderLine(line) == Some(h) <==>
            && COLON !in h.name && (h.value == [] || !IsSpace(h.value[0]))
            && exists gap: bytes :: Spaces(gap) && line == h.name + [COLON] + gap + h.value
  {
    if ParseHeaderLine(line) == Some(h) {
      var sep := FindByte(line, COLON).value;
      var k := SkipFrom(line, sep + 1);
      var gap := line[sep + 1..k];
      assert Spaces(gap) && line == h.name + [COLON] + gap + h.value;
    }
    if COLON !in h.name && (h.value == [] || !IsSpace(h.value[0])) {
      if gap: bytes :| Spaces(gap) && line == h.name + [COLON] + gap + h.value {
        HeaderLineReads(h, gap, line);
      }
    }
  }

  lemma HeaderLineReads(h: Header, gap: bytes, line: bytes)
    requires COLON !in h.name && (h.value == [] || !IsSpace(h.value[0])) && Spaces(gap) && line == h.name + [COLON] + gap + h.value
    ensures ParseHeaderLine(line) == Some(h)
  {
    var n := |h.name|;
    forall i | 0 <= i < n ensures line[i] == h.name[i] && line[i] != COLON {}
    assert line[n] == COLON && line[..n] == h.name;
    ByteIs(line, COLON, n);
    var k := n + 1 + |gap|;
    forall j | n + 1 <= j < k ensures IsSpace(line[j]) { assert line[j] == gap[j - n - 1]; }
    assert k < |line| ==> line[k] == h.value[0];
    SkipIs(line, n + 1, k);
    assert line[k..] == h.value;
  }

  // ------------------------------------------------------------------ connection flags

  predicate Says(h: Header, name: string, value: string) { EqualFold(h.name, name) && EqualFold(h.value, value) }

  /** What the headers say about the connection, whatever their order. */
  lemma {:induction false} FlagsSay(f: Flags, hs: seq<Header>)
    ensures AllFlags(f, hs).close <==> f.close || exists i :: 0 <= i < |hs| && Says(hs[i], "connection", "close")
    ensures AllFlags(f, hs).connUpgrade <==> f.connUpgrade || exists i :: 0 <= i < |hs| && Says(hs[i], "connection", "upgrade")
    ensures AllFlags(f, hs).upgrade <==> f.upgrade || exists i :: 0 <= i < |hs| && EqualFold(hs[i].name, "upgrade")
    decreases |hs|
  {
    if hs != [] {
      FlagsSay(AddFlags(f, hs[0]), hs[1..]);
      forall i | 0 < i < |hs| ensures hs[i] == hs[1..][i - 1] {}
      assert forall i | 0 <= i < |hs[1..]| :: hs[1..][i] == hs[i + 1];
    }
  }
}
