/** Bytes, byte strings and the scans of internal/parser/scan.go, cursor.go and startline.go. */
module Bytes {

  newtype byte = x: int | 0 <= x < 256
  type bytes = seq<byte>

  datatype Option<+T> = None | Some(value: T)

  const CR: byte := 13
  const LF: byte := 10
  const TAB: byte := 9
  const SP: byte := 32
  const DOT: byte := 46
  const SLASH: byte := 47
  const COLON: byte := 58
  const SEMI: byte := 59
  const CRLF: bytes := [CR, LF]

  /** The concatenation of a list of byte strings. */
  function Concat(parts: seq<bytes>): (r: bytes) {
    if parts == [] then [] else parts[0] + Concat(parts[1..])
  }

  lemma Assoc<T>(a: seq<T>, b: seq<T>, c: seq<T>)
    ensures a + (b + c) == a + b + c
  {
  }

  lemma EmptyAppend<T>(s: seq<T>)
    ensures [] + s == s && s + [] == s
  {
  }

  lemma DropAppend<T>(s: seq<T>, t: seq<T>, n: nat)
    requires n <= |s|
    ensures (s + t)[n..] == s[n..] + t
  {
  }

  lemma DropDrop<T>(s: seq<T>, m: nat, n: nat)
    requires m + n <= |s|
    ensures s[m..][n..] == s[m + n..]
  {
  }

  lemma TakeAppend<T>(s: seq<T>, t: seq<T>, n: nat)
    requires n <= |s|
    ensures (s + t)[..n] == s[..n]
  {
  }

  lemma SliceAppend<T>(s: seq<T>, t: seq<T>, m: nat, n: nat)
    requires m <= n <= |s|
    ensures (s + t)[m..n] == s[m..n]
  {
  }

  lemma {:induction false} ConcatAppend(a: seq<bytes>, b: seq<bytes>)
    ensures Concat(a + b) == Concat(a) + Concat(b)
  {
    if a == [] {
      EmptyAppend(b);
    } else {
      ConcatAppend(a[1..], b);
      DropAppend(a, b, 1);
      Assoc(a[0], Concat(a[1..]), Concat(b));
    }
  }

  lemma ConcatOne(p: bytes)
    ensures Concat([p]) == p
  {
    assert Concat([p][1..]) == [];
  }

  lemma ConcatSnoc(a: seq<bytes>, p: bytes)
    ensures Concat(a + [p]) == Concat(a) + p
  {
    ConcatAppend(a, [p]);
    ConcatOne(p);
  }

  /** The first `j` of some pieces are a prefix of them all. */
  lemma PiecesUpTo(pieces: seq<bytes>, j: nat)
    requires j <= |pieces|
    ensures |Concat(pieces[..j])| <= |Concat(pieces)| && Concat(pieces[..j]) == Concat(pieces)[..|Concat(pieces[..j])|]
    ensures Concat(pieces[j..]) == Concat(pieces)[|Concat(pieces[..j])|..]
  {
    assert pieces == pieces[..j] + pieces[j..];
    ConcatAppend(pieces[..j], pieces[j..]);
  }

  lemma PiecesNext(pieces: seq<bytes>, j: nat)
    requires j < |pieces|
    ensures Concat(pieces[..j + 1]) == Concat(pieces[..j]) + pieces[j]
  {
    assert pieces[..j + 1] == pieces[..j] + [pieces[j]];
    ConcatSnoc(pieces[..j], pieces[j]);
  }

  /** Where the pieces of `m` are cut. */
  lemma PieceCut(m: bytes, pieces: seq<bytes>, j: nat)
    requires Concat(pieces) == m && (forall i | 0 <= i < |pieces| :: pieces[i] != []) && 0 < j < |pieces|
    ensures var k := |Concat(pieces[..j])|;
            0 < k && k + |pieces[j]| <= |m| && Concat(pieces[..j]) == m[..k] && m[k..k + |pieces[j]|] == pieces[j]
  {
    PiecesUpTo(pieces, j);
    PiecesUpTo(pieces, j + 1);
    PiecesNext(pieces, j);
    PiecesNext(pieces, j - 1);
  }

  // ---------------------------------------------------------------- searching

  predicate CrlfAt(s: bytes, i: nat) {
    i + 1 < |s| && s[i] == CR && s[i + 1] == LF
  }

  /** The position of the first CRLF pair at or behind `i`; `CrlfFound` says what that means. */
  function CrlfFrom(s: bytes, i: nat): (r: Option<nat>)
    requires i <= |s|
    ensures r.Some? ==> i <= r.value && r.value + 2 <= |s|
    decreases |s| - i
  {
    if |s| < i + 2 then None
    else if CrlfAt(s, i) then Some(i)
    else CrlfFrom(s, i + 1)
  }

  lemma {:induction false} CrlfFound(s: bytes, i: nat)
    requires i <= |s|
    ensures match CrlfFrom(s, i)
            case Some(k) => CrlfAt(s, k) && forall j | i <= j < k :: !CrlfAt(s, j)
            case None => forall j: nat | i <= j :: !CrlfAt(s, j)
    decreases |s| - i
  {
    if i + 2 <= |s| && !CrlfAt(s, i) {
      CrlfFound(s, i + 1);
    }
  }

  function ByteFrom(s: bytes, b: byte, i: nat): (r: Option<nat>)
    requires i <= |s|
    ensures r.Some? ==> i <= r.value < |s| && s[r.value] == b && forall j | i <= j < r.value :: s[j] != b
    ensures r.None? ==> forall j | i <= j < |s| :: s[j] != b
    decreases |s| - i
  {
    if i == |s| then None
    else if s[i] == b then Some(i)
    else ByteFrom(s, b, i + 1)
  }

  /** The position of the first occurrence of a byte. */
  function FindByte(s: bytes, b: byte): (r: Option<nat>)
    ensures r.Some? ==> r.value < |s| && s[r.value] == b && forall j | 0 <= j < r.value :: s[j] != b
    ensures r.None? ==> b !in s
  {
    ByteFrom(s, b, 0)
  }

  predicate IsSpace(b: byte) { b == SP || b == TAB }

  /** The first position from `i` on that holds neither a space nor a tab. */
  function SkipFrom(s: bytes, i: nat): (k: nat)
    requires i <= |s|
    ensures i <= k <= |s|
    ensures forall j | i <= j < k :: IsSpace(s[j])
    ensures k < |s| ==> !IsSpace(s[k])
    decreases |s| - i
  {
    if i == |s| || !IsSpace(s[i]) then i else SkipFrom(s, i + 1)
  }

  function Lower(b: byte): (r: byte)
    ensures IsSpace(r) <==> IsSpace(b)
  {
    if 65 <= b <= 90 then b + 32 else b
  }

  /** Case-insensitive comparison with a token already in lower case. */
  predicate EqualFold(b: bytes, token: string) {
    |b| == |token| && forall i | 0 <= i < |b| :: Lower(b[i]) as int == token[i] as int
  }

  const SMALL: string := "abcdefghijklmnopqrstuvwxyz"
  const CAPITAL: string := "ABCDEFGHIJKLMNOPQRSTUVWXYZ"

  /** The byte is the character's code. */
  predicate Is(b: byte, c: char) { b as int == c as int }

  lemma LetterForms(i: nat)
    requires i < 26
    ensures SMALL[i] as int == 97 + i && CAPITAL[i] as int == 65 + i
  {
    if i < 9 {
      EarlyLetters(i);
    } else if i < 18 {
      MiddleLetters(i);
    } else {
      LateLetters(i);
    }
  }

  lemma EarlyLetters(i: nat)
    requires i < 9
    ensures SMALL[i] as int == 97 + i && CAPITAL[i] as int == 65 + i
  {
  }

  lemma MiddleLetters(i: nat)
    requires 9 <= i < 18
    ensures SMALL[i] as int == 97 + i && CAPITAL[i] as int == 65 + i
  {
  }

  lemma LateLetters(i: nat)
    requires 18 <= i < 26
    ensures SMALL[i] as int == 97 + i && CAPITAL[i] as int == 65 + i
  {
  }

  /** Capital letters go to the small letter in the same place, and nothing else changes. */
  lemma LowerForms(b: byte)
    ensures forall i | 0 <= i < 26 :: Is(b, CAPITAL[i]) ==> Is(Lower(b), SMALL[i])
    ensures (forall i | 0 <= i < 26 :: !Is(b, CAPITAL[i])) ==> Lower(b) == b
  {
    forall i | 0 <= i < 26 ensures SMALL[i] as int == 97 + i && CAPITAL[i] as int == 65 + i { LetterForms(i); }
    if 65 <= b <= 90 {
      assert Is(b, CAPITAL[b as int - 65]);
    }
  }

  // ------------------------------------------- how searches see longer inputs

  lemma CrlfIs(s: bytes, p: nat, i: nat)
    requires p <= i && CrlfAt(s, i) && forall j | p <= j < i :: !CrlfAt(s, j)
    ensures CrlfFrom(s, p) == Some(i)
  {
    CrlfFound(s, p);
    var r := CrlfFrom(s, p);
    assert r.Some? && !(i < r.value);
  }

  /** A CRLF already present stays the first one. */
  lemma CrlfKept(a: bytes, b: bytes, p: nat)
    requires p <= |a| && CrlfFrom(a, p).Some?
    ensures CrlfFrom(a + b, p) == CrlfFrom(a, p)
  {
    CrlfFound(a, p);
    var i := CrlfFrom(a, p).value;
    forall j | p <= j < i ensures !CrlfAt(a + b, j) { assert !CrlfAt(a, j); }
    CrlfIs(a + b, p, i);
  }

  lemma CrlfAcross(a: bytes, b: bytes, k: nat)
    ensures CrlfAt(a + b, |a| + k) <==> CrlfAt(b, k)
  {
  }

  /** Searching behind a first part is searching the second part. */
  lemma CrlfShift(a: bytes, b: bytes, q: nat)
    requires q <= |b|
    ensures CrlfFrom(a + b, |a| + q) == match CrlfFrom(b, q) case Some(j) => Some(|a| + j) case None => None
  {
    forall j: nat ensures CrlfAt(a + b, |a| + j) <==> CrlfAt(b, j) { CrlfAcross(a, b, j); }
    CrlfFound(b, q);
    CrlfFound(a + b, |a| + q);
    match CrlfFrom(b, q)
    case Some(i) =>
      forall j | |a| + q <= j < |a| + i ensures !CrlfAt(a + b, j) { assert !CrlfAt(b, j - |a|); }
      CrlfIs(a + b, |a| + q, |a| + i);
    case None =>
      forall j: nat | |a| + q <= j ensures !CrlfAt(a + b, j) { assert !CrlfAt(b, j - |a|); }
  }

  /** Without a CRLF in `a` and without one across the seam, the first CRLF is the one in `b`. */
  lemma CrlfBehind(a: bytes, b: bytes, p: nat)
    requires p < |a| && CrlfFrom(a, p).None? && (a[|a| - 1] == CR ==> b == [] || b[0] != LF)
    ensures CrlfFrom(a + b, p) == match CrlfFrom(b, 0) case Some(j) => Some(|a| + j) case None => None
  {
    CrlfShift(a, b, 0);
    CrlfFound(a, p);
    CrlfFound(a + b, p);
    CrlfFound(a + b, |a|);
    forall j | p <= j < |a| ensures !CrlfAt(a + b, j) { assert !CrlfAt(a, j); }
    if CrlfFrom(b, 0).Some? {
      CrlfIs(a + b, p, |a| + CrlfFrom(b, 0).value);
    } else {
      forall j: nat | p <= j ensures !CrlfAt(a + b, j) { assert |a| <= j ==> !CrlfAt(a + b, j); }
    }
  }

  /** A prefix holds the CRLF exactly when it reaches past it. */
  lemma CrlfPrefix(s: bytes, p: nat, k: nat)
    requires p <= k <= |s| && CrlfFrom(s, p).Some?
    ensures CrlfFrom(s[..k], p) == if CrlfFrom(s, p).value + 2 <= k then CrlfFrom(s, p) else None
  {
    CrlfFound(s, p);
    CrlfFound(s[..k], p);
    var i := CrlfFrom(s, p).value;
    assert forall j: nat :: CrlfAt(s[..k], j) ==> CrlfAt(s, j);
    if i + 2 <= k {
      CrlfIs(s[..k], p, i);
    } else {
      assert forall j: nat | p <= j :: !CrlfAt(s[..k], j);
    }
  }

  lemma ByteIs(s: bytes, b: byte, i: nat)
    requires i < |s| && s[i] == b && forall j | 0 <= j < i :: s[j] != b
    ensures FindByte(s, b) == Some(i)
  {
    var r := FindByte(s, b);
    assert r.Some? && !(i < r.value);
  }

  lemma ByteKept(a: bytes, x: bytes, b: byte)
    requires FindByte(a, b).Some?
    ensures FindByte(a + x, b) == FindByte(a, b)
  {
    var i := FindByte(a, b).value;
    ByteIs(a + x, b, i);
  }

  lemma SkipIs(s: bytes, i: nat, k: nat)
    requires i <= k <= |s| && (forall j | i <= j < k :: IsSpace(s[j])) && (k < |s| ==> !IsSpace(s[k]))
    ensures SkipFrom(s, i) == k
  {
    var q := SkipFrom(s, i);
    assert !(q < k) && !(k < q);
  }
}
