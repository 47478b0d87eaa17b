/** Series of handler operations whose response is not read back as it was written. */
module WriterCases {
  import opened Bytes
  import opened Numerals
  import opened Grammar
  import opened Reference
  import opened Wire
  import opened Writing
  import opened WriterWire
  import opened ResponseText
  import opened WriterHeads
  import opened WriterRoundTrip
  import opened WriterLimits

  const ONE: bytes := [97]
  const TWO: bytes := [98]

  /** A header map with a length. */
  function LengthMap(n: nat): (h: Headers) {
    map[CONTENT_LENGTH := [Print(10, n)]]
  }

  lemma LengthMapDecent(n: nat)
    requires n < 0x8000_0000
    ensures Decent(LengthMap(n))
  {
    LengthName();
    LengthIsNotEncoding();
    PrintParses(10, n);
  }

  /** Two operations more, of which the second sends the head. */
  lemma ThirdSends(a: Op, b: Op, c: Op)
    requires !Sends([], a) && !Sends([a], b) && Sends([a, b], c)
    ensures HeadAt([a, b, c]) == 2 && [a, b, c][..2] == [a, b] && [a, b, c][2..] == [c] && [a, b, c][2] == c
  {
    assert [a] == [] + [a] && [a, b] == [a] + [b] && [a, b, c] == [a, b] + [c];
    HeadAtSnoc([], a);
    HeadAtSnoc([a], b);
    HeadAtSnoc([a, b], c);
  }

  lemma FirstOfTwo(p: bytes, b: Op)
    requires p != []
    ensures FirstWrite([Write(p), b]) == p
  {
  }

  lemma LastSets(a: Op, h: Headers)
    ensures MapOf([a, EditHeader(h)]) == h && (!a.EditTrailer? ==> TrailerOf([a, EditHeader(h)]) == map[])
  {
    assert [a, EditHeader(h)] == [a] + [EditHeader(h)] && [a] == [] + [a];
    MapSnoc([a], EditHeader(h));
    TrailerSnoc([a], EditHeader(h));
    TrailerSnoc([], a);
  }

  /** A length set after the first Write: the second Write overtakes it, and "ab" is sent as "ba". */
  lemma LengthLetsOthersPass(env: Env)
    requires Sane(env)
    ensures var ops := [Write(ONE), EditHeader(LengthMap(2)), Write(TWO)];
            AllInRange(ops) && !ReadBack(env, ops, ParseMessage(HTTP, Response, DoEnd(env, DoAll(env, NEW, ops)).out))
  {
    var a, b, c := Write(ONE), EditHeader(LengthMap(2)), Write(TWO);
    var ops := [a, b, c];
    LengthMapDecent(2);
    PrintParses(10, 2);
    FirstOfTwo(ONE, b);
    LastSets(a, LengthMap(2));
    ThirdSends(a, b, c);
    GivenOne(c);
    assert ONE + TWO != TWO + ONE by { assert (ONE + TWO)[0] != (TWO + ONE)[0]; }
    RoundTripsExactly(env, ops);
  }

  /** A header map with two content types. */
  const TYPES: Headers := map[CONTENT_TYPE := [ONE, TWO]]

  lemma TypesDecent()
    ensures Decent(TYPES)
  {
    TypeName();
    NamesDiffer();
  }

  lemma OnlyOp(op: Op)
    requires op.EditHeader?
    ensures HeadAt([op]) == 1 && MapOf([op]) == op.header && EditAt([op]) == 1 && TrailerOf([op]) == map[] && StatusOf([op]) == 200
  {
    assert [op] == [] + [op];
    HeadAtSnoc([], op);
    SettingsSnoc([], op);
  }

  lemma KeysWithLength(h: Headers, n: nat)
    requires h.Keys == {CONTENT_TYPE} && Has(h, CONTENT_TYPE)
    ensures WithLength(h, n).Keys == {CONTENT_LENGTH, CONTENT_TYPE} && Has(WithLength(h, n), CONTENT_LENGTH)
    ensures Has(WithLength(h, n), CONTENT_TYPE)
  {
    NamesDiffer();
    assert CONTENT_LENGTH !in h;
  }

  /** Of two content types on an otherwise plain 200 response, one is sent. */
  lemma SecondTypeDropped(env: Env)
    requires Sane(env)
    ensures var ops := [EditHeader(TYPES)];
            && AllInRange(ops) && SeenMap(env, ops) == TYPES
            && ReadAll(HandlersLines(env, ops)) != ReadAll(Only(Listed(env, TYPES), Handlers))
  {
    var op := EditHeader(TYPES);
    TypesDecent();
    OnlyOp(op);
    HeadersKeptExactly(env, [op]);
    KeysWithLength(TYPES, 0);
    assert [op][1..] == [];
  }
}
