/** Unpadded URL-safe base64 (sections 3.2 and 5 of RFC 4648) over bytes. */
module Base64Url {
  import opened Types

  type Byte = n: nat | n < 256

  type Bytes = seq<Byte>

  type Sextet = n: nat | n < 64

  function Digit(v: Sextet): Byte {
    if v < 26 then 65 + v
    else if v < 52 then 97 + v - 26
    else if v < 62 then 48 + v - 52
    else if v == 62 then 45
    else 95
  }

  function Value(c: Byte): Option<Sextet> {
    if 65 <= c < 91 then Some(c - 65)
    else if 97 <= c < 123 then Some(c - 97 + 26)
    else if 48 <= c < 58 then Some(c - 48 + 52)
    else if c == 45 then Some(62)
    else if c == 95 then Some(63)
    else None
  }

  // The four sextets of up to three bytes; a missing byte counts as 0.
  function S0(x: Byte): Sextet { x / 4 }
  function S1(x: Byte, y: Byte): Sextet { x % 4 * 16 + y / 16 }
  function S2(y: Byte, z: Byte): Sextet { y % 16 * 4 + z / 64 }
  function S3(z: Byte): Sextet { z % 64 }

  function Encode(b: Bytes): Bytes {
    if b == [] then []
    else if |b| == 1 then [Digit(S0(b[0])), Digit(S1(b[0], 0))]
    else if |b| == 2 then [Digit(S0(b[0])), Digit(S1(b[0], b[1])), Digit(S2(b[1], 0))]
    else [Digit(S0(b[0])), Digit(S1(b[0], b[1])), Digit(S2(b[1], b[2])), Digit(S3(b[2]))] + Encode(b[3..])
  }

  function Values(s: Bytes): Option<seq<Sextet>> {
    if s == [] then Some([])
    else if s[0] == 10 || s[0] == 13 then Values(s[1..]) // the decoder skips line breaks
    else
      match Value(s[0])
      case None => None
      case Some(v) =>
        match Values(s[1..])
        case None => None
        case Some(vs) => Some([v] + vs)
  }

  function First(a: Sextet, b: Sextet): Byte {
    a as int * 4 + b as int / 16
  }

  function Second(b: Sextet, c: Sextet): Byte {
    b as int % 16 * 16 + c as int / 4
  }

  function Third(c: Sextet, d: Sextet): Byte {
    c as int % 4 * 64 + d as int
  }

  /** A lone final digit is an error; spare low bits of the last digit are ignored. */
  function Join(vs: seq<Sextet>): Option<Bytes> {
    if vs == [] then Some([])
    else if |vs| == 1 then None
    else if |vs| == 2 then Some([First(vs[0], vs[1])])
    else if |vs| == 3 then Some([First(vs[0], vs[1]), Second(vs[1], vs[2])])
    else
      match Join(vs[4..])
      case None => None
      case Some(rest) => Some([First(vs[0], vs[1]), Second(vs[1], vs[2]), Third(vs[2], vs[3])] + rest)
  }

  function Decode(s: Bytes): Option<Bytes> {
    match Values(s)
    case None => None
    case Some(vs) => Join(vs)
  }

  /** The sextets of a byte string: what its encoding spells. */
  function Split(b: Bytes): seq<Sextet> {
    if b == [] then []
    else if |b| == 1 then [S0(b[0]), S1(b[0], 0)]
    else if |b| == 2 then [S0(b[0]), S1(b[0], b[1]), S2(b[1], 0)]
    else [S0(b[0]), S1(b[0], b[1]), S2(b[1], b[2]), S3(b[2])] + Split(b[3..])
  }

  function Spell(vs: seq<Sextet>): Bytes {
    if vs == [] then [] else [Digit(vs[0])] + Spell(vs[1..])
  }

  lemma DigitRoundTrip(v: Sextet)
    ensures Value(Digit(v)) == Some(v) && Digit(v) != 10 && Digit(v) != 13
  {
  }

  lemma {:induction false} SpellRoundTrip(vs: seq<Sextet>)
    ensures Values(Spell(vs)) == Some(vs)
  {
    if vs != [] {
      DigitRoundTrip(vs[0]);
      SpellRoundTrip(vs[1..]);
      assert Spell(vs)[1..] == Spell(vs[1..]);
      assert vs == [vs[0]] + vs[1..];
    }
  }

  lemma {:induction false} SpellAppend(xs: seq<Sextet>, ys: seq<Sextet>)
    ensures Spell(xs + ys) == Spell(xs) + Spell(ys)
  {
    if xs == [] {
      assert xs + ys == ys;
    } else {
      assert (xs + ys)[0] == xs[0] && (xs + ys)[1..] == xs[1..] + ys;
      SpellAppend(xs[1..], ys);
    }
  }

  lemma SpellOne(v: Sextet, rest: seq<Sextet>)
    ensures Spell([v] + rest) == [Digit(v)] + Spell(rest)
  {
    assert ([v] + rest)[1..] == rest;
  }

  lemma SpellShort(a: Sextet, b: Sextet, c: Sextet, d: Sextet)
    ensures Spell([a, b]) == [Digit(a), Digit(b)]
    ensures Spell([a, b, c]) == [Digit(a), Digit(b), Digit(c)]
    ensures Spell([a, b, c, d]) == [Digit(a), Digit(b), Digit(c), Digit(d)]
  {
    assert Spell([]) == [];
    SpellOne(a, [b]);
    SpellOne(b, []);
    SpellOne(a, [b, c]);
    SpellOne(b, [c]);
    SpellOne(c, []);
    SpellOne(a, [b, c, d]);
    SpellOne(b, [c, d]);
    SpellOne(c, [d]);
    SpellOne(d, []);
  }

  lemma {:induction false} EncodeSpells(b: Bytes)
    ensures Encode(b) == Spell(Split(b))
  {
    if |b| == 1 {
      SpellShort(S0(b[0]), S1(b[0], 0), 0, 0);
    } else if |b| == 2 {
      SpellShort(S0(b[0]), S1(b[0], b[1]), S2(b[1], 0), 0);
    } else if |b| > 2 {
      EncodeSpells(b[3..]);
      SpellShort(S0(b[0]), S1(b[0], b[1]), S2(b[1], b[2]), S3(b[2]));
      SpellAppend([S0(b[0]), S1(b[0], b[1]), S2(b[1], b[2]), S3(b[2])], Split(b[3..]));
    }
  }

  lemma Regroup(x: Byte, y: Byte, z: Byte)
    ensures First(S0(x), S1(x, y)) == x
    ensures Second(S1(x, y), S2(y, z)) == y
    ensures Third(S2(y, z), S3(z)) == z
  {
  }

  lemma JoinShort(a: Sextet, b: Sextet, c: Sextet)
    ensures Join([a, b]) == Some([First(a, b)])
    ensures Join([a, b, c]) == Some([First(a, b), Second(b, c)])
  {
  }

  lemma JoinFour(a: Sextet, b: Sextet, c: Sextet, d: Sextet, vs: seq<Sextet>, rest: Bytes)
    requires Join(vs) == Some(rest)
    ensures Join([a, b, c, d] + vs) == Some([First(a, b), Second(b, c), Third(c, d)] + rest)
  {
    assert ([a, b, c, d] + vs)[4..] == vs;
  }

  lemma JoinSplitOne(x: Byte)
    ensures Join(Split([x])) == Some([x])
  {
    var a, b := S0(x), S1(x, 0);
    assert First(a, b) == x by {
      Regroup(x, 0, 0);
    }
    JoinShort(a, b, 0);
    assert Split([x]) == [a, b];
  }

  lemma JoinSplitTwo(x: Byte, y: Byte)
    ensures Join(Split([x, y])) == Some([x, y])
  {
    Regroup(x, y, 0);
    JoinShort(S0(x), S1(x, y), S2(y, 0));
  }

  lemma SplitMore(x: Byte, y: Byte, z: Byte, t: Bytes)
    ensures Split([x, y, z] + t) == [S0(x), S1(x, y), S2(y, z), S3(z)] + Split(t)
  {
    assert ([x, y, z] + t)[3..] == t;
  }

  lemma JoinSplitMore(x: Byte, y: Byte, z: Byte, t: Bytes, vs: seq<Sextet>)
    requires Join(vs) == Some(t)
    ensures Join([S0(x), S1(x, y), S2(y, z), S3(z)] + vs) == Some([x, y, z] + t)
  {
    Regroup(x, y, z);
    JoinFour(S0(x), S1(x, y), S2(y, z), S3(z), vs, t);
  }

  lemma {:induction false} JoinSplit(b: Bytes)
    ensures Join(Split(b)) == Some(b)
  {
    if |b| == 1 {
      assert b == [b[0]];
      JoinSplitOne(b[0]);
    } else if |b| == 2 {
      assert b == [b[0], b[1]];
      JoinSplitTwo(b[0], b[1]);
    } else if |b| > 2 {
      var x, y, z, t := b[0], b[1], b[2], b[3..];
      assert b == [x, y, z] + t;
      JoinSplit(t);
      SplitMore(x, y, z, t);
      JoinSplitMore(x, y, z, t, Split(t));
    }
  }

  /** decode(encode(b)) = b, for every byte string. */
  lemma RoundTrip(b: Bytes)
    ensures Decode(Encode(b)) == Some(b)
  {
    EncodeSpells(b);
    SpellRoundTrip(Split(b));
    JoinSplit(b);
  }

  /** An encoding holds neither whitespace nor "=", so it stays one token. */
  lemma {:induction false} EncodingIsPlain(b: Bytes)
    ensures forall c :: c in Encode(b) ==> Value(c).Some?
  {
    if |b| > 2 {
      EncodingIsPlain(b[3..]);
    }
  }

  /** Four digits for each three bytes, and no padding for a rest of one or two. */
  lemma {:induction false} EncodingLength(b: Bytes)
    ensures |Encode(b)| == |b| / 3 * 4 + if |b| % 3 == 0 then 0 else |b| % 3 + 1
  {
    if |b| >= 3 {
      EncodingLength(b[3..]);
    }
  }

  /** Worked by hand: "foobar" and its beginnings (section 10 of RFC 4648), and three bytes of the
      two digits in which the URL-safe alphabet differs. */
  lemma KnownEncodings()
    ensures Encode([102]) == [90, 103]
    ensures Encode([102, 111]) == [90, 109, 56]
    ensures Encode([102, 111, 111, 98, 97, 114]) == [90, 109, 57, 118, 89, 109, 70, 121]
    ensures Encode([0xFB, 0xFF, 0xBF]) == [45, 95, 45, 95]
  {
    var foobar: Bytes := [102, 111, 111, 98, 97, 114];
    assert foobar[3..] == [98, 97, 114] && [98, 97, 114][3..] == [];
    assert [0xFB, 0xFF, 0xBF][3..] == [];
  }
}
