/** The header map that ReadRequest (internal/parser/request.go) builds: canonical keys, and values
    grouped over one shared array of first values. */
module HeaderMap {
  import opened Bytes
  import opened Grammar

  // --------------------------------------------------------------------- canonical keys

  const DASH: byte := 45

  function Upper(b: byte): (r: byte) {
    if 97 <= b <= 122 then b - 32 else b
  }

  /** Small letters go to the capital in the same place, and nothing else changes. */
  lemma UpperForms(b: byte)
    ensures forall i | 0 <= i < 26 :: Is(b, SMALL[i]) ==> Is(Upper(b), CAPITAL[i])
    ensures (forall i | 0 <= i < 26 :: !Is(b, SMALL[i])) ==> Upper(b) == b
  {
    forall i | 0 <= i < 26 ensures SMALL[i] as int == 97 + i && CAPITAL[i] as int == 65 + i { LetterForms(i); }
    if 97 <= b <= 122 {
      assert Is(b, SMALL[b as int - 97]);
    }
  }

  /** A key with the first letter and every letter behind a dash in upper case, all others in lower
      case. */
  function Canonical(name: bytes, upper: bool): (k: bytes)
    ensures |k| == |name|
    decreases |name|
  {
    if name == [] then []
    else
      var c := if upper then Upper(name[0]) else Lower(name[0]);
      [c] + Canonical(name[1..], c == DASH)
  }

  /** Whether the letter at `i` starts a word. */
  predicate Starts(name: bytes, i: nat, upper: bool)
    requires i < |name|
  {
    if i == 0 then upper else name[i - 1] == DASH
  }

  lemma {:induction false} CanonicalAt(name: bytes, upper: bool, i: nat)
    requires i < |name|
    ensures Canonical(name, upper)[i] == if Starts(name, i, upper) then Upper(name[i]) else Lower(name[i])
    decreases |name|
  {
    if 0 < i {
      var c := if upper then Upper(name[0]) else Lower(name[0]);
      CanonicalAt(name[1..], c == DASH, i - 1);
    }
  }

  /** The loop of canonicalHeaderKeyBytes. */
  method CanonicalHeaderKeyBytes(name: bytes) returns (key: bytes)
    ensures key == Canonical(name, true)
  {
    var buf := new byte[|name|];
    var upper := true;
    assert name[0..] == name;
    for i := 0 to |name|
      invariant Canonical(name, true) == buf[..i] + Canonical(name[i..], upper)
    {
      var c := name[i];
      if upper {
        if 97 <= c <= 122 {
          c := c - 32;
        }
      } else if 65 <= c <= 90 {
        c := c + 32;
      }
      buf[i] := c;
      upper := c == DASH;
      assert name[i..][1..] == name[i + 1..];
      assert buf[..i + 1] == buf[..i] + [c];
    }
    key := buf[..];
    assert buf[..] == buf[..|name|];
    EmptyAppend(key);
  }

  /** Letters in lower case, digits and dashes. */
  predicate Token(t: string) {
    forall i | 0 <= i < |t| :: t[i] == '-' || 'a' <= t[i] <= 'z'
  }

  function UpperChar(c: char): (n: int) {
    if 'a' <= c <= 'z' then c as int - 32 else c as int
  }

  /** The key of a known name. */
  predicate KeyOf(t: string, key: bytes) {
    |t| == |key| && forall i | 0 <= i < |t| :: key[i] as int == if i == 0 || t[i - 1] == '-' then UpperChar(t[i]) else t[i] as int
  }

  /** A name that equals a known one up to case has the known one's key. */
  lemma KnownIsCanonical(name: bytes, t: string, key: bytes)
    requires EqualFold(name, t) && Token(t) && KeyOf(t, key)
    ensures Canonical(name, true) == key
  {
    forall i | 0 <= i < |name| ensures Canonical(name, true)[i] == key[i] {
      CanonicalAt(name, true, i);
      assert Lower(name[i]) as int == t[i] as int;
      if 0 < i {
        assert Lower(name[i - 1]) as int == t[i - 1] as int;
      }
    }
  }

  const KEY_CONNECTION: bytes := [67, 111, 110, 110, 101, 99, 116, 105, 111, 110]  // Connection
  const KEY_CONTENT_LENGTH: bytes := [67, 111, 110, 116, 101, 110, 116, 45, 76, 101, 110, 103, 116, 104]  // Content-Length
  const KEY_TRANSFER_ENCODING: bytes := [84, 114, 97, 110, 115, 102, 101, 114, 45, 69, 110, 99, 111, 100, 105, 110, 103]  // Transfer-Encoding
  const KEY_CACHE_CONTROL: bytes := [67, 97, 99, 104, 101, 45, 67, 111, 110, 116, 114, 111, 108]  // Cache-Control
  const KEY_ACCEPT: bytes := [65, 99, 99, 101, 112, 116]  // Accept
  const KEY_ACCEPT_ENCODING: bytes := [65, 99, 99, 101, 112, 116, 45, 69, 110, 99, 111, 100, 105, 110, 103]  // Accept-Encoding
  const KEY_ACCEPT_LANGUAGE: bytes := [65, 99, 99, 101, 112, 116, 45, 76, 97, 110, 103, 117, 97, 103, 101]  // Accept-Language
  const KEY_USER_AGENT: bytes := [85, 115, 101, 114, 45, 65, 103, 101, 110, 116]  // User-Agent
  const KEY_REFERER: bytes := [82, 101, 102, 101, 114, 101, 114]  // Referer
  const KEY_DNT: bytes := [68, 110, 116]  // Dnt

  /** canonicalHeaderKey. */
  function CanonicalHeaderKey(name: bytes): (r: Option<bytes>)
    ensures r.Some? ==> r.value == Canonical(name, true)
  {
    if EqualFold(name, "connection") then ConnectionKey(); KnownIsCanonical(name, "connection", KEY_CONNECTION); Some(KEY_CONNECTION) else
    if EqualFold(name, "content-length") then ContentLengthKey(); KnownIsCanonical(name, "content-length", KEY_CONTENT_LENGTH);
        Some(KEY_CONTENT_LENGTH) else
    if EqualFold(name, "transfer-encoding") then TransferEncodingKey();
        KnownIsCanonical(name, "transfer-encoding", KEY_TRANSFER_ENCODING); Some(KEY_TRANSFER_ENCODING) else
    if EqualFold(name, "cache-control") then CacheControlKey(); KnownIsCanonical(name, "cache-control", KEY_CACHE_CONTROL);
        Some(KEY_CACHE_CONTROL) else
    if EqualFold(name, "accept") then AcceptKey(); KnownIsCanonical(name, "accept", KEY_ACCEPT); Some(KEY_ACCEPT) else
    if EqualFold(name, "accept-encoding") then AcceptEncodingKey(); KnownIsCanonical(name, "accept-encoding", KEY_ACCEPT_ENCODING);
        Some(KEY_ACCEPT_ENCODING) else
    if EqualFold(name, "accept-language") then AcceptLanguageKey(); KnownIsCanonical(name, "accept-language", KEY_ACCEPT_LANGUAGE);
        Some(KEY_ACCEPT_LANGUAGE) else
    if EqualFold(name, "user-agent") then UserAgentKey(); KnownIsCanonical(name, "user-agent", KEY_USER_AGENT); Some(KEY_USER_AGENT) else
    if EqualFold(name, "referer") then RefererKey(); KnownIsCanonical(name, "referer", KEY_REFERER); Some(KEY_REFERER) else
    if EqualFold(name, "dnt") then DntKey(); KnownIsCanonical(name, "dnt", KEY_DNT); Some(KEY_DNT) else
    None
  }

  lemma ConnectionKey()
    ensures Token("connection") && KeyOf("connection", KEY_CONNECTION)
  {
  }

  lemma ContentLengthKey()
    ensures Token("content-length") && KeyOf("content-length", KEY_CONTENT_LENGTH)
  {
  }

  lemma TransferEncodingKey()
    ensures Token("transfer-encoding") && KeyOf("transfer-encoding", KEY_TRANSFER_ENCODING)
  {
  }

  lemma CacheControlKey()
    ensures Token("cache-control") && KeyOf("cache-control", KEY_CACHE_CONTROL)
  {
  }

  lemma AcceptKey()
    ensures Token("accept") && KeyOf("accept", KEY_ACCEPT)
  {
  }

  lemma AcceptEncodingKey()
    ensures Token("accept-encoding") && KeyOf("accept-encoding", KEY_ACCEPT_ENCODING)
  {
  }

  lemma AcceptLanguageKey()
    ensures Token("accept-language") && KeyOf("accept-language", KEY_ACCEPT_LANGUAGE)
  {
  }

  lemma UserAgentKey()
    ensures Token("user-agent") && KeyOf("user-agent", KEY_USER_AGENT)
  {
  }

  lemma RefererKey()
    ensures Token("referer") && KeyOf("referer", KEY_REFERER)
  {
  }

  lemma DntKey()
    ensures Token("dnt") && KeyOf("dnt", KEY_DNT)
  {
  }

  // -------------------------------------------------------------------------- the fold

  type Values = map<bytes, seq<bytes>>

  datatype Pair<K, V> = Pair(key: K, value: V)

  type Field = Pair<bytes, bytes>

  function Key(name: bytes): (k: bytes) {
    match CanonicalHeaderKey(name)
    case Some(k) => k
    case None => Canonical(name, true)
  }

  /** One value more under its key. */
  function Put<K, V>(m: map<K, seq<V>>, p: Pair<K, V>): (r: map<K, seq<V>>) {
    m[p.key := (if p.key in m then m[p.key] else []) + [p.value]]
  }

  /** addParsedHeader. */
  function AddParsedHeader(m: Values, h: Header): (r: Values) {
    Put(m, Pair(Key(h.name), h.value))
  }

  predicate IsHost(h: Header) { EqualFold(h.name, "host") }

  /** addParsedHeader over all headers but Host. */
  function AddAll(m: Values, hs: seq<Header>): (r: Values)
    decreases |hs|
  {
    if hs == [] then m else AddAll(if IsHost(hs[0]) then m else AddParsedHeader(m, hs[0]), hs[1..])
  }

  /** The first pass: the pairs of all headers but Host. */
  function Pairs(hs: seq<Header>): (ps: seq<Field>) {
    if hs == [] then [] else (if IsHost(hs[0]) then [] else [Pair(Key(hs[0].name), hs[0].value)]) + Pairs(hs[1..])
  }

  function PutAll<K, V>(m: map<K, seq<V>>, ps: seq<Pair<K, V>>): (r: map<K, seq<V>>)
    decreases |ps|
  {
    if ps == [] then m else PutAll(Put(m, ps[0]), ps[1..])
  }

  lemma {:induction false} PairsFold(m: Values, hs: seq<Header>)
    ensures PutAll(m, Pairs(hs)) == AddAll(m, hs)
    decreases |hs|
  {
    if hs != [] {
      if IsHost(hs[0]) {
        PairsFold(m, hs[1..]);
        EmptyAppend(Pairs(hs[1..]));
      } else {
        var p := Pair(Key(hs[0].name), hs[0].value);
        PairsFold(Put(m, p), hs[1..]);
        assert ([p] + Pairs(hs[1..]))[1..] == Pairs(hs[1..]);
      }
    }
  }

  /** The values of the pairs with a key, in order. */
  function ValuesFor<K(==), V>(ps: seq<Pair<K, V>>, k: K): (vs: seq<V>) {
    if ps == [] then [] else (if ps[0].key == k then [ps[0].value] else []) + ValuesFor(ps[1..], k)
  }

  /** The fold keeps, for each key, its values in order and with their multiplicity. */
  lemma {:induction false} FoldGroups<K, V>(m: map<K, seq<V>>, ps: seq<Pair<K, V>>, k: K)
    ensures (k in PutAll(m, ps)) <==> k in m || exists i :: 0 <= i < |ps| && ps[i].key == k
    ensures k in PutAll(m, ps) ==> PutAll(m, ps)[k] == (if k in m then m[k] else []) + ValuesFor(ps, k)
    decreases |ps|
  {
    if ps == [] {
      if k in m {
        EmptyAppend(m[k]);
      }
    } else {
      FoldGroups(Put(m, ps[0]), ps[1..], k);
      var before := if k in m then m[k] else [];
      if ps[0].key == k {
        Assoc(before, [ps[0].value], ValuesFor(ps[1..], k));
        assert 0 <= 0 < |ps| && ps[0].key == k;
      } else {
        EmptyAppend(ValuesFor(ps[1..], k));
        if exists i :: 0 <= i < |ps| && ps[i].key == k {
          var i :| 0 <= i < |ps| && ps[i].key == k;
          assert ps[1..][i - 1].key == k;
        }
        if exists i :: 0 <= i < |ps[1..]| && ps[1..][i].key == k {
          var i :| 0 <= i < |ps[1..]| && ps[1..][i].key == k;
          assert ps[i + 1].key == k;
        }
      }
    }
  }

  // ------------------------------------------------------------- slices of shared arrays

  /** A slice: `len` elements of an array from `off` on, with room for `cap`. */
  datatype Slice<!V> = Slice(arr: array<V>, off: nat, len: nat, cap: nat)

  ghost predicate Sound<V>(s: Slice<V>) {
    s.len <= s.cap && s.off + s.cap <= s.arr.Length
  }

  ghost function Contents<V>(s: Slice<V>): (vs: seq<V>)
    requires Sound(s)
    reads s.arr
  {
    s.arr[s.off..s.off + s.len]
  }

  /** The room of two slices does not overlap, so that neither can be changed through the other. */
  ghost predicate Apart<V>(s: Slice<V>, t: Slice<V>) {
    s.arr != t.arr || s.off + s.cap <= t.off || t.off + t.cap <= s.off
  }

  /** append: in place where there is room, else in a new array. */
  method Append<V(0)>(s: Slice<V>, v: V, grow: nat -> nat) returns (t: Slice<V>)
    requires Sound(s) && grow(s.len) > s.len
    modifies s.arr
    ensures Sound(t) && Contents(t) == old(Contents(s)) + [v]
    ensures t == s.(len := s.len + 1) || (fresh(t.arr) && unchanged(s.arr))
    ensures forall i | 0 <= i < s.arr.Length && !(s.off <= i < s.off + s.cap) :: s.arr[i] == old(s.arr[i])
  {
    if s.len < s.cap {
      s.arr[s.off + s.len] := v;
      t := s.(len := s.len + 1);
    } else {
      var a := new V[grow(s.len)];
      forall i | 0 <= i < s.len {
        a[i] := s.arr[s.off + i];
      }
      a[s.len] := v;
      t := Slice(a, 0, s.len + 1, a.Length);
      assert a[..s.len] == old(Contents(s));
    }
  }

  type Slices<!K, !V> = map<K, Slice<V>>

  ghost function Arrays<K, V>(m: Slices<K, V>): (s: set<object>) {
    set k | k in m :: m[k].arr
  }

  /** The slices hold the values of `cur`. */
  ghost predicate Holds<K, V>(m: Slices<K, V>, cur: map<K, seq<V>>)
    reads Arrays(m)
  {
    m.Keys == cur.Keys && forall k | k in m :: Sound(m[k]) && Contents(m[k]) == cur[k]
  }

  /** No two keys' slices share room. */
  ghost predicate NoSharing<K, V>(m: Slices<K, V>) {
    forall k, l | k in m && l in m && k != l :: Apart(m[k], m[l])
  }

  /** Slices of the shared array of first values lie below `used`. */
  ghost predicate Below<K, V>(m: Slices<K, V>, first: array<V>, used: nat) {
    forall k | k in m && m[k].arr == first :: m[k].off + m[k].cap <= used
  }

  /** Changes inside the room [lo, hi) do not show outside it. */
  lemma OutsideKept<V>(a: seq<V>, b: seq<V>, lo: nat, hi: nat, off: nat, end: nat)
    requires |a| == |b| && off <= end <= |a| && (end <= lo || hi <= off)
    requires forall i | 0 <= i < |a| && !(lo <= i < hi) :: b[i] == a[i]
    ensures b[off..end] == a[off..end]
  {
  }

  /** A value more for a key that has some. */
  method Extend<K, V(0)>(m: Slices<K, V>, k: K, v: V, grow: nat -> nat, ghost cur: map<K, seq<V>>) returns (t: Slice<V>)
    requires Holds(m, cur) && NoSharing(m) && k in m && forall n :: grow(n) > n
    modifies m[k].arr
    ensures Holds(m[k := t], cur[k := cur[k] + [v]])
    ensures t == m[k].(len := m[k].len + 1) || fresh(t.arr)
  {
    ghost var s, before := m[k], m[k].arr[..];
    t := Append(m[k], v, grow);
    ghost var after := s.arr[..];
    forall l | l in m && l != k ensures Contents(m[l]) == cur[l] {
      assert Apart(m[l], s);
      if m[l].arr == s.arr {
        OutsideKept(before, after, s.off, s.off + s.cap, m[l].off, m[l].off + m[l].len);
      }
    }
  }

  lemma ExtendKeepsApart<K, V>(m: Slices<K, V>, k: K, t: Slice<V>)
    requires NoSharing(m) && k in m
    requires t == m[k].(len := m[k].len + 1) || t.arr !in Arrays(m)
    ensures NoSharing(m[k := t])
  {
    forall l | l in m && l != k ensures Apart(m[l], t) && Apart(t, m[l]) {
      assert Apart(m[l], m[k]) && m[l].arr in Arrays(m);
    }
  }

  /** The first value of a key goes into the shared array, with no room to grow. */
  method Introduce<K, V>(m: Slices<K, V>, k: K, v: V, first: array<V>, used: nat, ghost cur: map<K, seq<V>>) returns (t: Slice<V>)
    requires Holds(m, cur) && Below(m, first, used) && k !in m && used < first.Length
    modifies first
    ensures Holds(m[k := t], cur[k := [v]]) && t == Slice(first, used, 1, 1)
  {
    first[used] := v;
    t := Slice(first, used, 1, 1);
    assert Contents(t) == [v];
  }

  lemma IntroduceKeepsApart<K, V>(m: Slices<K, V>, k: K, first: array<V>, used: nat)
    requires NoSharing(m) && Below(m, first, used) && k !in m
    ensures NoSharing(m[k := Slice(first, used, 1, 1)]) && Below(m[k := Slice(first, used, 1, 1)], first, used + 1)
  {
  }

  lemma PutNext<K, V>(m: map<K, seq<V>>, ps: seq<Pair<K, V>>, i: nat)
    requires i < |ps|
    ensures PutAll(m, ps[i..]) == PutAll(Put(m, ps[i]), ps[i + 1..])
  {
    assert ps[i..][0] == ps[i] && ps[i..][1..] == ps[i + 1..];
  }

  /** One turn of the second pass: a further value is appended, a first value goes to the shared array. */
  method AddPair<K(==), V(0)>(m: Slices<K, V>, p: Pair<K, V>, grow: nat -> nat, first: array<V>, used: nat, ghost cur: map<K, seq<V>>)
      returns (r: Slices<K, V>, used': nat)
    requires Holds(m, cur) && NoSharing(m) && Below(m, first, used) && used < first.Length && forall n :: grow(n) > n
    modifies Arrays(m), first
    ensures Holds(r, Put(cur, p)) && NoSharing(r) && Below(r, first, used') && used <= used' <= used + 1
    ensures forall o | o in Arrays(r) :: o in Arrays(m) || o == first || fresh(o)
  {
    if p.key in m {
      assert m[p.key].arr in Arrays(m);
      var t := Extend(m, p.key, p.value, grow, cur);
      ExtendKeepsApart(m, p.key, t);
      r, used' := m[p.key := t], used;
    } else {
      var t := Introduce(m, p.key, p.value, first, used, cur);
      EmptyAppend([p.value]);
      IntroduceKeepsApart(m, p.key, first, used);
      r, used' := m[p.key := t], used + 1;
    }
  }

  /** The second pass of ReadRequest: the map over one shared array of first values holds what folding
      addParsedHeader gives, and no key's slice shares room with another's. */
  method Group<K(==), V(0)>(ps: seq<Pair<K, V>>, grow: nat -> nat) returns (m: Slices<K, V>)
    requires forall n :: grow(n) > n
    ensures Holds(m, PutAll(map[], ps)) && NoSharing(m) && forall o | o in Arrays(m) :: fresh(o)
  {
    var first := new V[|ps|];
    var used := 0;
    ghost var cur: map<K, seq<V>> := map[];
    m := map[];
    assert ps[0..] == ps;
    for i := 0 to |ps|
      invariant used <= i && first.Length == |ps| && fresh(first)
      invariant PutAll(map[], ps) == PutAll(cur, ps[i..])
      invariant Holds(m, cur) && NoSharing(m) && Below(m, first, used)
      invariant forall o | o in Arrays(m) :: fresh(o)
    {
      PutNext(cur, ps, i);
      m, used := AddPair(m, ps[i], grow, first, used, cur);
      cur := Put(cur, ps[i]);
    }
  }

  // ----------------------------------------------------------------------- the whole map

  /** A header that belongs under a key: its name in canonical form is the key, and it is not Host. */
  predicate Belongs(h: Header, k: bytes) {
    Canonical(h.name, true) == k && !EqualFold(h.name, "host")
  }

  /** The values, in order, of the headers that belong under a key. */
  function Selected(hs: seq<Header>, k: bytes): (vs: seq<bytes>) {
    if hs == [] then [] else (if Belongs(hs[0], k) then [hs[0].value] else []) + Selected(hs[1..], k)
  }

  /** The first pass picks, for every key, the headers that belong under it. */
  lemma {:induction false} PairsSelect(hs: seq<Header>, k: bytes)
    ensures ValuesFor(Pairs(hs), k) == Selected(hs, k)
    ensures (exists i :: 0 <= i < |Pairs(hs)| && Pairs(hs)[i].key == k) <==> Selected(hs, k) != []
  {
    if hs != [] {
      var ps := Pairs(hs[1..]);
      PairsSelect(hs[1..], k);
      if IsHost(hs[0]) {
        EmptyAppend(ps);
        EmptyAppend(Selected(hs[1..], k));
      } else {
        var p := Pair(Key(hs[0].name), hs[0].value);
        assert ([p] + ps)[1..] == ps;
        KeyAmong(p, ps, k);
      }
    }
  }

  lemma KeyAmong(p: Field, ps: seq<Field>, k: bytes)
    ensures (exists i :: 0 <= i < |[p] + ps| && ([p] + ps)[i].key == k) <==>
            p.key == k || exists i :: 0 <= i < |ps| && ps[i].key == k
  {
    var all := [p] + ps;
    assert all[0] == p && forall i | 0 <= i < |ps| :: all[i + 1] == ps[i];
    if i :| 0 <= i < |all| && all[i].key == k {
      assert i == 0 || ps[i - 1].key == k;
    }
    if i :| 0 <= i < |ps| && ps[i].key == k {
      assert all[i + 1].key == k;
    }
  }

  lemma {:induction false} SelectedSome(hs: seq<Header>, k: bytes)
    ensures Selected(hs, k) != [] <==> exists i :: 0 <= i < |hs| && Belongs(hs[i], k)
  {
    if hs != [] {
      SelectedSome(hs[1..], k);
      if i :| 0 <= i < |hs[1..]| && Belongs(hs[1..][i], k) {
        assert Belongs(hs[i + 1], k);
      }
      if i :| 0 < i < |hs| && Belongs(hs[i], k) {
        assert Belongs(hs[1..][i - 1], k);
      }
    }
  }

  /** The map of a request's headers: for every key the values of the headers with that canonical name,
      Host left out, in order and with their multiplicity; and both ways of building it agree. */
  lemma GroupingIsTheFold(hs: seq<Header>, k: bytes)
    ensures PutAll(map[], Pairs(hs)) == AddAll(map[], hs)
    ensures k in AddAll(map[], hs) ==> AddAll(map[], hs)[k] == Selected(hs, k)
    ensures k in AddAll(map[], hs) <==> exists i :: 0 <= i < |hs| && Belongs(hs[i], k)
  {
    PairsFold(map[], hs);
    FoldGroups(map[], Pairs(hs), k);
    EmptyAppend(ValuesFor(Pairs(hs), k));
    PairsSelect(hs, k);
    SelectedSome(hs, k);
  }

  /** Pairs that give every key the headers that belong under it, folded. */
  lemma FoldSelects(hs: seq<Header>, ps: seq<Field>, k: bytes)
    requires ps == Pairs(hs)
    ensures k in PutAll(map[], ps) <==> Selected(hs, k) != []
    ensures k in PutAll(map[], ps) ==> PutAll(map[], ps)[k] == Selected(hs, k)
  {
    GroupingIsTheFold(hs, k);
    SelectedSome(hs, k);
  }
}
