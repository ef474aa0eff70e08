/** The kernel command line as the agent edits it and the guest splits it. Strings are their
    UTF-8 bytes. */
module KernelArgs {
  import opened Types
  import opened Base64Url

  const SPACE: Byte := 32
  const SEPARATOR: Bytes := [45, 45]

  function Text(b: Bytes): string {
    seq(|b|, i requires 0 <= i < |b| => b[i] as char)
  }

  lemma SeparatorReads()
    ensures Text(SEPARATOR) == "--" && Text([SPACE]) == " "
  {
  }

  /** ASCII whitespace: tab, line feed, vertical tab, form feed, carriage return, space. */
  predicate AsciiSpace(c: Byte) {
    9 <= c <= 13 || c == 32
  }

  /** How many bytes of whitespace `s` starts with: one for ASCII, two or three for the
      other Unicode spaces (U+0085, U+00A0, U+1680, U+2000 to U+200A, U+2028, U+2029,
      U+202F, U+205F, U+3000), none otherwise. */
  function SpaceWidth(s: Bytes): (w: nat)
    ensures w <= |s|
  {
    if s == [] then 0
    else if AsciiSpace(s[0]) then 1
    else if |s| >= 2 && s[0] == 0xC2 && (s[1] == 0x85 || s[1] == 0xA0) then 2
    else if |s| >= 3 && s[0] == 0xE1 && s[1] == 0x9A && s[2] == 0x80 then 3
    else if |s| >= 3 && s[0] == 0xE2 && s[1] == 0x80
      && (0x80 <= s[2] <= 0x8A || s[2] == 0xA8 || s[2] == 0xA9 || s[2] == 0xAF) then 3
    else if |s| >= 3 && s[0] == 0xE2 && s[1] == 0x81 && s[2] == 0x9F then 3
    else if |s| >= 3 && s[0] == 0xE3 && s[1] == 0x80 && s[2] == 0x80 then 3
    else 0
  }

  /** A character in UTF-8. */
  function Utf8(c: char): Bytes {
    var n := c as int;
    if n < 0x80 then [n]
    else if n < 0x800 then [0xC0 + n / 0x40, 0x80 + n % 0x40]
    else if n < 0x1_0000 then [0xE0 + n / 0x1000, 0x80 + n / 0x40 % 0x40, 0x80 + n % 0x40]
    else [0xF0 + n / 0x4_0000, 0x80 + n / 0x1000 % 0x40, 0x80 + n / 0x40 % 0x40, 0x80 + n % 0x40]
  }

  /** Whitespace on the command line is what unicode.IsSpace says of the characters there. */
  lemma SpaceStarts(c: char, s: Bytes)
    requires Space(c) && Utf8(c) <= s
    ensures SpaceWidth(s) == |Utf8(c)|
  {
    assert s[0] == Utf8(c)[0];
    assert |Utf8(c)| > 1 ==> s[1] == Utf8(c)[1];
    assert |Utf8(c)| > 2 ==> s[2] == Utf8(c)[2];
  }

  lemma SpaceStartsOnlySo(s: Bytes) returns (c: char)
    requires SpaceWidth(s) > 0
    ensures Space(c) && s[..SpaceWidth(s)] == Utf8(c)
  {
    c :=
      if SpaceWidth(s) == 1 then s[0] as char
      else if SpaceWidth(s) == 2 then s[1] as char
      else if s[0] == 0xE1 then '\U{1680}'
      else if s[0] == 0xE3 then '\U{3000}'
      else if s[1] == 0x81 then '\U{205F}'
      else (0x2000 + (s[2] as int - 0x80)) as char;
  }

  function Flush(cur: Bytes): seq<Bytes> {
    if cur == [] then [] else [cur]
  }

  function FieldsFrom(cur: Bytes, s: Bytes): seq<Bytes>
    decreases |s|
  {
    if s == [] then Flush(cur)
    else if SpaceWidth(s) > 0 then Flush(cur) + FieldsFrom([], s[SpaceWidth(s)..])
    else FieldsFrom(cur + [s[0]], s[1..])
  }

  /** strings.Fields */
  function Fields(s: Bytes): seq<Bytes> {
    FieldsFrom([], s)
  }

  /** No whitespace starts anywhere in `s`. */
  ghost predicate Spaceless(s: Bytes) {
    forall i :: 0 <= i < |s| ==> SpaceWidth(s[i..]) == 0
  }

  ghost predicate Token(s: Bytes) {
    s != [] && Spaceless(s)
  }

  /** An ASCII byte does not complete a longer whitespace sequence begun before it. */
  lemma WidthBeforeAscii(s: Bytes, c: Byte, rest: Bytes)
    requires s != [] && c < 128
    ensures SpaceWidth(s + [c] + rest) == SpaceWidth(s)
  {
    var t := s + [c] + rest;
    assert t[0] == s[0];
    assert |s| > 1 ==> t[1] == s[1];
    assert |s| == 1 ==> t[1] == c;
    assert |s| > 2 ==> t[2] == s[2];
    assert |s| == 2 ==> t[2] == c;
  }

  /** Splitting at a space. */
  lemma {:induction false} FieldsAtSpace(cur: Bytes, s: Bytes, rest: Bytes)
    ensures FieldsFrom(cur, s + [SPACE] + rest) == FieldsFrom(cur, s) + Fields(rest)
    decreases |s|
  {
    var t := s + [SPACE] + rest;
    if s == [] {
      assert t[0] == SPACE && t[1..] == rest;
    } else {
      WidthBeforeAscii(s, SPACE, rest);
      var w := SpaceWidth(s);
      if w > 0 {
        assert t[w..] == s[w..] + [SPACE] + rest;
        FieldsAtSpace([], s[w..], rest);
      } else {
        assert t[1..] == s[1..] + [SPACE] + rest;
        FieldsAtSpace(cur + [s[0]], s[1..], rest);
      }
    }
  }

  lemma {:induction false} SpacelessIsOneField(cur: Bytes, s: Bytes)
    requires Spaceless(s)
    ensures FieldsFrom(cur, s) == Flush(cur + s)
    decreases |s|
  {
    if s == [] {
      assert cur + s == cur;
    } else {
      assert s[0..] == s;
      forall i | 0 <= i < |s[1..]| ensures SpaceWidth(s[1..][i..]) == 0 {
        assert s[1..][i..] == s[i + 1..];
      }
      SpacelessIsOneField(cur + [s[0]], s[1..]);
      assert cur + [s[0]] + s[1..] == cur + s;
    }
  }

  /** strings.Join with one space. */
  function JoinSpaced(tokens: seq<Bytes>): Bytes {
    if tokens == [] then []
    else if |tokens| == 1 then tokens[0]
    else tokens[0] + [SPACE] + JoinSpaced(tokens[1..])
  }

  function AllFields(strings: seq<Bytes>): seq<Bytes> {
    if strings == [] then [] else Fields(strings[0]) + AllFields(strings[1..])
  }

  lemma {:induction false} FieldsOfJoined(strings: seq<Bytes>)
    ensures Fields(JoinSpaced(strings)) == AllFields(strings)
  {
    if |strings| == 1 {
      assert strings[1..] == [];
    } else if |strings| > 1 {
      FieldsAtSpace([], strings[0], JoinSpaced(strings[1..]));
      FieldsOfJoined(strings[1..]);
    }
  }

  lemma {:induction false} AllFieldsAppend(xs: seq<Bytes>, ys: seq<Bytes>)
    ensures AllFields(xs + ys) == AllFields(xs) + AllFields(ys)
  {
    if xs == [] {
      assert xs + ys == ys;
    } else {
      assert (xs + ys)[0] == xs[0] && (xs + ys)[1..] == xs[1..] + ys;
      AllFieldsAppend(xs[1..], ys);
    }
  }

  lemma {:induction false} FieldsOfTokens(tokens: seq<Bytes>)
    requires forall t :: t in tokens ==> Token(t)
    ensures AllFields(tokens) == tokens
  {
    if tokens != [] {
      var t := tokens[0];
      assert t in tokens && tokens == [t] + tokens[1..];
      TokenIsOneField(t);
      FieldsOfTokens(tokens[1..]);
    }
  }

  lemma TokenIsOneField(t: Bytes)
    requires Token(t)
    ensures Fields(t) == [t]
  {
    SpacelessIsOneField([], t);
    assert [] + t == t;
  }

  /** The fields of a string are tokens. `cur` is the field begun so far, and no whitespace
      starts in it, whatever follows. */
  lemma {:induction false} FieldsAreTokens(cur: Bytes, s: Bytes)
    requires forall i :: 0 <= i < |cur| ==> SpaceWidth(cur[i..] + s) == 0
    ensures forall t :: t in FieldsFrom(cur, s) ==> Token(t)
    decreases |s|
  {
    if s == [] {
      forall i | 0 <= i < |cur| ensures SpaceWidth(cur[i..]) == 0 {
        assert cur[i..] + s == cur[i..];
      }
    } else {
      var w := SpaceWidth(s);
      if w > 0 {
        forall i | 0 <= i < |cur| ensures SpaceWidth(cur[i..]) == 0 {
          PrefixWidth(cur[i..], s);
        }
        FieldsAreTokens([], s[w..]);
      } else {
        var cur' := cur + [s[0]];
        forall i | 0 <= i < |cur'| ensures SpaceWidth(cur'[i..] + s[1..]) == 0 {
          if i < |cur| {
            assert cur'[i..] + s[1..] == cur[i..] + s;
          } else {
            assert cur'[i..] + s[1..] == s;
          }
        }
        FieldsAreTokens(cur', s[1..]);
      }
    }
  }

  /** No whitespace character, in UTF-8, is in any field. */
  lemma FieldsHoldNoSpace(s: Bytes, t: Bytes, c: char, i: nat)
    requires t in Fields(s) && i <= |t| && Space(c)
    ensures t != [] && !(Utf8(c) <= t[i..])
  {
    FieldsAreTokens([], s);
    if Utf8(c) <= t[i..] {
      SpaceStarts(c, t[i..]);
    }
  }

  lemma PrefixWidth(s: Bytes, rest: Bytes)
    requires s != [] && SpaceWidth(s + rest) == 0
    ensures SpaceWidth(s) == 0
  {
    var t := s + rest;
    assert t[0] == s[0];
    assert |s| > 1 ==> t[1] == s[1];
    assert |s| > 2 ==> t[2] == s[2];
  }

  // -------------------------------------------------------------- inserting an argument

  function SeparatorAt(parts: seq<Bytes>): (i: nat)
    ensures i <= |parts| && (i < |parts| ==> parts[i] == SEPARATOR)
    ensures forall k :: 0 <= k < i ==> parts[k] != SEPARATOR
  {
    if parts == [] then 0
    else if parts[0] == SEPARATOR then 0
    else
      var i := SeparatorAt(parts[1..]);
      assert forall k :: 0 < k < i + 1 ==> parts[k] == parts[1..][k - 1];
      i + 1
  }

  /** `parts` with `more` before the first "--", or at the end. */
  function Spliced(parts: seq<Bytes>, more: seq<Bytes>): seq<Bytes> {
    var i := SeparatorAt(parts);
    parts[..i] + more + parts[i..]
  }

  lemma FieldsOfInserted(kernelArgs: Bytes, arg: Bytes, i: nat)
    requires i <= |Fields(kernelArgs)|
    ensures var parts := Fields(kernelArgs);
            Fields(JoinSpaced(parts[..i] + [arg] + parts[i..])) == parts[..i] + Fields(arg) + parts[i..]
  {
    FieldsAreTokens([], kernelArgs);
    var parts := Fields(kernelArgs);
    FieldsOfJoined(parts[..i] + [arg] + parts[i..]);
    AllFieldsAppend(parts[..i] + [arg], parts[i..]);
    AllFieldsAppend(parts[..i], [arg]);
    FieldsOfTokens(parts[..i]);
    FieldsOfTokens(parts[i..]);
    assert [arg][1..] == [] && AllFields([arg]) == Fields(arg);
  }

  /** insertKernelArg: whatever the argument splits into goes before the first "--", or to
      the end, and all other tokens keep their order. */
  method InsertKernelArg(kernelArgs: Bytes, arg: Bytes) returns (r: Bytes)
    ensures r == Insert(kernelArgs, arg)
    ensures Fields(r) == Spliced(Fields(kernelArgs), Fields(arg))
  {
    InsertSplices(kernelArgs, arg);
    if kernelArgs == [] {
      return arg;
    }
    var parts := Fields(kernelArgs);
    var i := 0;
    while i < |parts|
      invariant 0 <= i <= |parts| && forall k :: 0 <= k < i ==> parts[k] != SEPARATOR
    {
      if parts[i] == SEPARATOR {
        return JoinSpaced(parts[..i] + [arg] + parts[i..]);
      }
      i := i + 1;
    }
    return kernelArgs + [SPACE] + arg;
  }

  function Insert(kernelArgs: Bytes, arg: Bytes): Bytes {
    if kernelArgs == [] then arg
    else
      var parts := Fields(kernelArgs);
      var i := SeparatorAt(parts);
      if i < |parts| then JoinSpaced(parts[..i] + [arg] + parts[i..]) else kernelArgs + [SPACE] + arg
  }

  lemma InsertSplices(kernelArgs: Bytes, arg: Bytes)
    ensures Fields(Insert(kernelArgs, arg)) == Spliced(Fields(kernelArgs), Fields(arg))
  {
    var parts := Fields(kernelArgs);
    var i := SeparatorAt(parts);
    if kernelArgs == [] {
      assert parts == [] && Spliced(parts, Fields(arg)) == Fields(arg);
    } else if i < |parts| {
      FieldsOfInserted(kernelArgs, arg, i);
    } else {
      FieldsAtSpace([], kernelArgs, arg);
      assert parts[..i] == parts && parts[i..] == [];
    }
  }

  /** A token with this prefix stands before the first "--". */
  predicate HasArg(kernelArgs: Bytes, prefix: Bytes) {
    exists i :: 0 <= i < SeparatorAt(Fields(kernelArgs)) && prefix <= Fields(kernelArgs)[i]
  }

  /** hasKernelArgPrefix */
  method HasKernelArgPrefix(kernelArgs: Bytes, prefix: Bytes) returns (found: bool)
    ensures found <==> HasArg(kernelArgs, prefix)
  {
    var parts := Fields(kernelArgs);
    var i := 0;
    while i < |parts|
      invariant 0 <= i <= |parts| && forall k :: 0 <= k < i ==> parts[k] != SEPARATOR && !(prefix <= parts[k])
    {
      if parts[i] == SEPARATOR {
        assert SeparatorAt(parts) == i;
        return false;
      }
      if prefix <= parts[i] {
        assert i < SeparatorAt(parts);
        return true;
      }
      i := i + 1;
    }
    return false;
  }

  // ------------------------------------------------------------------- how long fields are

  /** A field is no longer than the string, and shorter if the string has whitespace. */
  lemma {:induction false} FieldsAreShort(cur: Bytes, s: Bytes, t: Bytes)
    requires t in FieldsFrom(cur, s)
    ensures |t| <= |cur| + |s|
    ensures !Spaceless(s) ==> |t| < |cur| + |s|
    decreases |s|
  {
    if s != [] {
      var w := SpaceWidth(s);
      if w > 0 {
        if t !in Flush(cur) {
          FieldsAreShort([], s[w..], t);
        }
      } else {
        FieldsAreShort(cur + [s[0]], s[1..], t);
        if i :| 0 <= i < |s| && SpaceWidth(s[i..]) != 0 {
          assert s[0..] == s;
          assert s[1..][i - 1..] == s[i..];
        }
      }
    }
  }
}
