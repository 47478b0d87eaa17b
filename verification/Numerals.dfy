/** The decimal and hexadecimal codecs: parseDecimalInt32, parseChunkSizeLineBytes and the
    unhex table of internal/parser, against the numerals the response writer prints. */
module Numerals {
  import opened Bytes

  /** The value of an `int32` variable that was assigned `n`: wrap-around at 2^31. */
  function Int32(n: int): (r: int)
    ensures -0x8000_0000 <= r < 0x8000_0000
    ensures (n - r) % 0x1_0000_0000 == 0
  {
    (n + 0x8000_0000) % 0x1_0000_0000 - 0x8000_0000
  }

  lemma Int32Exact(n: int)
    ensures Int32(n) == n <==> -0x8000_0000 <= n < 0x8000_0000
  {
  }

  lemma Int32Period(n: int, k: int)
    ensures Int32(n + 0x1_0000_0000 * k) == Int32(n)
  {
  }

  /** Wrapping after every digit or once at the end gives the same value. */
  lemma Int32Step(a: int, base: int, d: int)
    ensures Int32(Int32(a) * base + d) == Int32(a * base + d)
  {
    var k := (a - Int32(a)) / 0x1_0000_0000;
    assert a == Int32(a) + 0x1_0000_0000 * k;
    assert a * base + d == Int32(a) * base + d + 0x1_0000_0000 * (k * base) by {
      calc {
        a * base;
        (Int32(a) + 0x1_0000_0000 * k) * base;
        Int32(a) * base + 0x1_0000_0000 * (k * base);
      }
    }
    Int32Period(Int32(a) * base + d, k * base);
  }

  /** The digit a byte stands for, or -1. */
  function HexVal(b: byte): (d: int)
    ensures -1 <= d < 16
  {
    if 48 <= b <= 57 then b as int - 48
    else if 97 <= b <= 102 then b as int - 97 + 10
    else if 65 <= b <= 70 then b as int - 65 + 10
    else -1
  }

  predicate Digits(base: nat, s: bytes) {
    forall i | 0 <= i < |s| :: 0 <= HexVal(s[i]) < base
  }

  /** The number denoted by the first `k` digits. */
  function NumeralUpTo(base: nat, s: bytes, k: nat): (n: nat)
    requires Digits(base, s) && k <= |s|
  {
    if k == 0 then 0 else NumeralUpTo(base, s, k - 1) * base + HexVal(s[k - 1])
  }

  /** The number a digit string denotes, with no bound on its size. */
  function Numeral(base: nat, s: bytes): (n: nat)
    requires Digits(base, s)
  {
    NumeralUpTo(base, s, |s|)
  }

  lemma {:induction false} NumeralPrefix(base: nat, s: bytes, t: bytes, k: nat)
    requires Digits(base, s) && Digits(base, t) && k <= |s| && k <= |t| && s[..k] == t[..k]
    ensures NumeralUpTo(base, s, k) == NumeralUpTo(base, t, k)
  {
    if k != 0 {
      assert s[..k - 1] == s[..k][..k - 1] && t[..k - 1] == t[..k][..k - 1];
      assert s[k - 1] == s[..k][k - 1] && t[k - 1] == t[..k][k - 1];
      NumeralPrefix(base, s, t, k - 1);
    }
  }

  /** What the parser's numeral loops return: nothing for an empty string or a foreign byte,
      otherwise the denoted number reduced to an int32. */
  function ParseNumeral(base: nat, s: bytes): (r: Option<int>) {
    if s == [] || !Digits(base, s) then None else Some(Int32(Numeral(base, s)))
  }

  /** The parsed value is the denoted one exactly when that is below 2^31. */
  lemma ParseExact(base: nat, s: bytes)
    requires s != [] && Digits(base, s)
    ensures ParseNumeral(base, s) == Some(Numeral(base, s)) <==> Numeral(base, s) < 0x8000_0000
  {
    Int32Exact(Numeral(base, s));
  }

  function BeforeSemi(line: bytes): (r: bytes) {
    match FindByte(line, SEMI)
    case Some(i) => line[..i]
    case None => line
  }

  /** The size on a chunk-size line, extensions after ';' ignored. */
  function ParseChunkSize(line: bytes): (r: Option<int>) {
    ParseNumeral(16, BeforeSemi(line))
  }

  // --------------------------------------------------------------- printers

  function Digit(d: nat): (b: byte)
    requires d < 16
    ensures HexVal(b) == d && b != CR && b != LF && b != SEMI && b != COLON && !IsSpace(b)
  {
    if d < 10 then (48 + d) as byte else (87 + d) as byte
  }

  /** strconv.Itoa and strconv.AppendInt of a non-negative number. */
  function Print(base: nat, n: nat): (s: bytes)
    requires base == 10 || base == 16
    ensures s != []
    decreases n
  {
    if n < base then [Digit(n)]
    else
      DivLess(n, base);
      Print(base, n / base) + [Digit(n % base)]
  }

  lemma DivLess(n: nat, base: nat)
    requires (base == 10 || base == 16) && base <= n
    ensures n / base < n && n == (n / base) * base + n % base
  {
    if base == 10 {
      assert n / 10 < n;
    } else {
      assert n / 16 < n;
    }
  }

  /** Printing then reading a numeral gives the number back, for both bases in use. */
  lemma {:induction false} PrintParses(base: nat, n: nat)
    requires base == 10 || base == 16
    ensures Digits(base, Print(base, n)) && Numeral(base, Print(base, n)) == n
    ensures forall i | 0 <= i < |Print(base, n)| ::
              var b := Print(base, n)[i]; b != CR && b != LF && b != SEMI && b != COLON && !IsSpace(b)
    decreases n
  {
    var s := Print(base, n);
    if n < base {
      assert s == [Digit(n)];
      assert NumeralUpTo(base, s, 0) == 0;
    } else {
      DivLess(n, base);
      PrintParses(base, n / base);
      assert s[..|s| - 1] == Print(base, n / base);
      NumeralPrefix(base, s, Print(base, n / base), |s| - 1);
    }
  }

  lemma NoSemi(line: bytes)
    requires forall i | 0 <= i < |line| :: line[i] != SEMI
    ensures BeforeSemi(line) == line
  {
    assert FindByte(line, SEMI).None?;
  }

  /** The chunk-size line the writer prints for `n` reads back as `n`. */
  lemma ChunkSizeRoundTrip(n: nat)
    requires n < 0x8000_0000
    ensures ParseChunkSize(Print(16, n)) == Some(n)
  {
    PrintParses(16, n);
    NoSemi(Print(16, n));
    Int32Exact(n);
  }

  lemma DecimalRoundTrip(n: nat)
    requires n < 0x8000_0000
    ensures ParseNumeral(10, Print(10, n)) == Some(n)
  {
    PrintParses(10, n);
    Int32Exact(n);
  }

  // --------------------------------------------------------- what numerals look like

  const LOWER_DIGITS: string := "0123456789abcdef"
  const UPPER_DIGITS: string := "0123456789ABCDEF"

  /** The bytes with digit value `d` are the two written forms of that digit. */
  lemma DigitBytes(b: byte, d: nat)
    requires d < 16
    ensures HexVal(b) == d <==> Is(b, LOWER_DIGITS[d]) || Is(b, UPPER_DIGITS[d])
  {
    DigitForms(d);
  }

  lemma DigitForms(d: nat)
    requires d < 16
    ensures LOWER_DIGITS[d] as int == if d < 10 then 48 + d else 87 + d
    ensures UPPER_DIGITS[d] as int == if d < 10 then 48 + d else 55 + d
  {
    if d < 8 {
      LowDigitForms(d);
    } else {
      HighDigitForms(d);
    }
  }

  lemma LowDigitForms(d: nat)
    requires d < 8
    ensures LOWER_DIGITS[d] as int == 48 + d && UPPER_DIGITS[d] as int == 48 + d
  {
  }

  lemma HighDigitForms(d: nat)
    requires 8 <= d < 16
    ensures LOWER_DIGITS[d] as int == if d < 10 then 48 + d else 87 + d
    ensures UPPER_DIGITS[d] as int == if d < 10 then 48 + d else 55 + d
  {
  }

  /** Every other byte is no digit. */
  lemma NoDigit(b: byte)
    ensures HexVal(b) == -1 <==> forall d | 0 <= d < 16 :: !Is(b, LOWER_DIGITS[d]) && !Is(b, UPPER_DIGITS[d])
  {
    forall d | 0 <= d < 16
      ensures HexVal(b) == d <==> Is(b, LOWER_DIGITS[d]) || Is(b, UPPER_DIGITS[d])
    {
      DigitBytes(b, d);
    }
    if HexVal(b) != -1 {
      assert Is(b, LOWER_DIGITS[HexVal(b)]) || Is(b, UPPER_DIGITS[HexVal(b)]);
    }
  }

  /** Numerals that differ in the case of their digits denote the same number. */
  lemma {:induction false} CaseIsIrrelevant(base: nat, s: bytes, t: bytes, k: nat)
    requires Digits(base, s) && k <= |s| && |t| == |s| && forall i | 0 <= i < |s| :: t[i] == Lower(s[i])
    ensures Digits(base, t) && NumeralUpTo(base, t, k) == NumeralUpTo(base, s, k)
  {
    forall i | 0 <= i < |s| ensures HexVal(t[i]) == HexVal(s[i]) { assert t[i] == Lower(s[i]); }
    if k != 0 {
      CaseIsIrrelevant(base, s, t, k - 1);
    }
  }

  function LowerAll(s: bytes): (t: bytes)
    ensures |t| == |s| && forall i | 0 <= i < |s| :: t[i] == Lower(s[i])
  {
    seq(|s|, i requires 0 <= i < |s| => Lower(s[i]))
  }

  function Zeros(n: nat): (s: bytes) {
    seq(n, _ => 48)
  }

  lemma PrintDigit(base: nat, n: nat)
    requires (base == 10 || base == 16) && n < base
    ensures Print(base, n) == [Digit(n)]
  {
  }

  lemma LastDigit(base: nat, q: nat, d: nat)
    requires (base == 10 || base == 16) && d < base
    ensures (q * base + d) / base == q && (q * base + d) % base == d
  {
    if base == 10 {
      assert (q * 10 + d) / 10 == q;
    } else {
      assert (q * 16 + d) / 16 == q;
    }
  }

  /** One digit more, behind a number that is not zero. */
  lemma PrintMore(base: nat, q: nat, d: nat)
    requires (base == 10 || base == 16) && d < base && q != 0
    ensures Print(base, q * base + d) == Print(base, q) + [Digit(d)]
  {
    LastDigit(base, q, d);
    assert q * base >= base by {
      if base == 10 { assert q * 10 >= 10; } else { assert q * 16 >= 16; }
    }
  }

  lemma LowerDigit(b: byte)
    requires HexVal(b) >= 0
    ensures Lower(b) == Digit(HexVal(b))
  {
  }

  /** `t` is the printed form of `n` behind some zeros. */
  ghost predicate Padded(base: nat, t: bytes, n: nat)
    requires base == 10 || base == 16
  {
    exists z: nat :: t == Zeros(z) + Print(base, n)
  }

  lemma PaddedDigit(base: nat, d: nat)
    requires (base == 10 || base == 16) && d < base
    ensures Padded(base, [Digit(d)], d)
  {
    EmptyAppend(Print(base, d));
    assert [Digit(d)] == Zeros(0) + Print(base, d);
  }

  lemma PaddedMore(base: nat, t: bytes, q: nat, d: nat)
    requires (base == 10 || base == 16) && d < base && Padded(base, t, q)
    ensures Padded(base, t + [Digit(d)], q * base + d)
  {
    var z: nat :| t == Zeros(z) + Print(base, q);
    if q == 0 {
      PrintDigit(base, 0);
      PrintDigit(base, d);
      assert t + [Digit(d)] == Zeros(z + 1) + Print(base, d);
    } else {
      PrintMore(base, q, d);
      Assoc(Zeros(z), Print(base, q), [Digit(d)]);
    }
  }

  lemma NumeralSnoc(base: nat, s: bytes)
    requires s != [] && Digits(base, s)
    ensures var s' := s[..|s| - 1]; Digits(base, s') && Numeral(base, s) == Numeral(base, s') * base + HexVal(s[|s| - 1])
  {
    NumeralPrefix(base, s, s[..|s| - 1], |s| - 1);
  }

  lemma LowerSnoc(base: nat, s: bytes)
    requires s != [] && Digits(base, s) && base <= 16
    ensures LowerAll(s) == LowerAll(s[..|s| - 1]) + [Digit(HexVal(s[|s| - 1]))]
  {
    LowerDigit(s[|s| - 1]);
  }

  /** A digit string is, up to case, some zeros and the printed form of the number it denotes. */
  lemma {:induction false} NumeralIsPrinted(base: nat, s: bytes)
    requires (base == 10 || base == 16) && s != [] && Digits(base, s)
    ensures Padded(base, LowerAll(s), Numeral(base, s))
    decreases |s|
  {
    var s' := s[..|s| - 1];
    if s' != [] {
      NumeralIsPrinted(base, s');
    }
    NumeralPrintedStep(base, s, s');
  }

  lemma NumeralPrintedStep(base: nat, s: bytes, s': bytes)
    requires (base == 10 || base == 16) && s != [] && Digits(base, s) && s' == s[..|s| - 1]
    requires s' == [] || Padded(base, LowerAll(s'), Numeral(base, s'))
    ensures Padded(base, LowerAll(s), Numeral(base, s))
  {
    var d := HexVal(s[|s| - 1]);
    LowerSnoc(base, s);
    NumeralSnoc(base, s);
    if s' == [] {
      FirstDigit(base, s', d);
      PaddedDigit(base, d);
      EmptyAppend([Digit(d)]);
    } else {
      PaddedMore(base, LowerAll(s'), Numeral(base, s'), d);
    }
  }

  lemma FirstDigit(base: nat, s: bytes, d: nat)
    requires s == [] && Digits(base, s)
    ensures Numeral(base, s) * base + d == d
  {
    assert NumeralUpTo(base, s, 0) == 0;
  }

  lemma {:induction false} ZerosDenoteNothing(base: nat, z: nat, t: bytes, k: nat)
    requires (base == 10 || base == 16) && Digits(base, t) && k <= z + |t|
    ensures Digits(base, Zeros(z) + t)
    ensures NumeralUpTo(base, Zeros(z) + t, k) == if k <= z then 0 else NumeralUpTo(base, t, k - z)
  {
    if k != 0 {
      ZerosDenoteNothing(base, z, t, k - 1);
    }
  }

  lemma PaddedDenotes(base: nat, s: bytes, v: nat)
    requires (base == 10 || base == 16) && Padded(base, LowerAll(s), v)
    ensures s != [] && Digits(base, s) && Numeral(base, s) == v
  {
    var t := LowerAll(s);
    var z: nat :| t == Zeros(z) + Print(base, v);
    PrintParses(base, v);
    ZerosDenoteNothing(base, z, Print(base, v), |t|);
    forall i | 0 <= i < |s| ensures 0 <= HexVal(s[i]) < base {
      assert t[i] == Lower(s[i]);
      LowerValue(s[i]);
    }
    CaseIsIrrelevant(base, s, t, |s|);
  }

  /** Which strings the numeral parsers read as `n`: the printed forms of the numbers that wrap to `n`, with
      any number of zeros in front and digits in either case. */
  lemma ReadsExactly(base: nat, s: bytes, n: int)
    requires base == 10 || base == 16
    ensures ParseNumeral(base, s) == Some(n) <==> exists v: nat :: Int32(v) == n && Padded(base, LowerAll(s), v)
  {
    if ParseNumeral(base, s) == Some(n) {
      NumeralIsPrinted(base, s);
    }
    if v: nat :| Int32(v) == n && Padded(base, LowerAll(s), v) {
      PaddedDenotes(base, s, v);
    }
  }

  lemma LowerValue(b: byte)
    ensures HexVal(Lower(b)) == HexVal(b)
  {
  }

  /** A chunk-size line is a numeral, and behind it nothing or an extension that begins with a semicolon. */
  lemma SizeLineExactly(line: bytes, n: int)
    ensures ParseChunkSize(line) == Some(n) <==>
            exists d, ext :: line == d + ext && SEMI !in d && (ext == [] || ext[0] == SEMI) && ParseNumeral(16, d) == Some(n)
  {
    var s := BeforeSemi(line);
    assert line == s + line[|s|..] && SEMI !in s && (line[|s|..] == [] || line[|s|..][0] == SEMI);
    if d, ext :| line == d + ext && SEMI !in d && (ext == [] || ext[0] == SEMI) && ParseNumeral(16, d) == Some(n) {
      if ext == [] {
        EmptyAppend(d);
        assert FindByte(line, SEMI).None?;
      } else {
        forall i | 0 <= i < |d| ensures line[i] != SEMI { assert line[i] == d[i]; }
        assert line[|d|] == SEMI;
        ByteIs(line, SEMI, |d|);
      }
      assert s == d;
    }
  }

  // ------------------------------------------------------- the loops themselves

  method ParseDecimalInt32(b: bytes) returns (r: Option<int>)
    ensures r == ParseNumeral(10, b)
  {
    if |b| == 0 {
      return None;
    }
    var n := 0;
    for i := 0 to |b|
      invariant Digits(10, b[..i])
      invariant Digits(10, b) ==> n == Int32(NumeralUpTo(10, b, i))
    {
      var c := b[i];
      if c < 48 || 57 < c {
        return None;
      }
      if Digits(10, b) {
        Int32Step(NumeralUpTo(10, b, i), 10, HexVal(c));
      }
      n := Int32(n * 10 + (c as int - 48));
    }
    assert b[..|b|] == b;
    return Some(n);
  }

  predicate IsUnhex(table: seq<int>) {
    |table| == 256 && forall b: byte :: table[b] == HexVal(b)
  }

  method InitUnhex() returns (table: array<int>)
    ensures fresh(table) && IsUnhex(table[..])
  {
    table := new int[256];
    for i := 0 to 256
      invariant forall j | 0 <= j < i :: table[j] == -1
    {
      table[i] := -1;
    }
    for ch := 48 to 58
      invariant forall j | 0 <= j < 256 :: table[j] == if 48 <= j < ch then j - 48 else -1
    {
      table[ch] := ch - 48;
    }
    for ch := 97 to 103
      invariant forall j | 0 <= j < 256 ::
                  table[j] == if 48 <= j < 58 then j - 48 else if 97 <= j < ch then j - 97 + 10 else -1
    {
      table[ch] := ch - 97 + 10;
    }
    for ch := 65 to 71
      invariant forall j | 0 <= j < 256 ::
                  table[j] == if 48 <= j < 58 then j - 48 else if 97 <= j < 103 then j - 97 + 10
                              else if 65 <= j < ch then j - 65 + 10 else -1
    {
      table[ch] := ch - 65 + 10;
    }
  }

  method ParseChunkSizeLineBytes(table: seq<int>, line: bytes) returns (r: Option<int>)
    requires IsUnhex(table)
    ensures r == ParseChunkSize(line)
  {
    var s := line;
    var semi := FindByte(line, SEMI);
    if semi.Some? {
      s := line[..semi.value];
    }
    if |s| == 0 {
      return None;
    }
    var size := 0;
    for i := 0 to |s|
      invariant Digits(16, s[..i])
      invariant Digits(16, s) ==> size == Int32(NumeralUpTo(16, s, i))
    {
      var digit := table[s[i]];
      if digit < 0 {
        return None;
      }
      if Digits(16, s) {
        Int32Step(NumeralUpTo(16, s, i), 16, digit);
      }
      size := Int32(size * 16 + digit);
    }
    assert s[..|s|] == s;
    return Some(size);
  }
}
