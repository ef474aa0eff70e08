/** Environment variables on their way into the guest: written as kernel arguments by the
    agent, read back from the command line by the guest's init. */
module EnvVars {
  import opened Types
  import Ordering
  import opened Base64Url
  import opened KernelArgs

  // "firework.env." and "firework.env64."
  const ENV: Bytes := [102, 105, 114, 101, 119, 111, 114, 107, 46, 101, 110, 118, 46]
  const ENV64: Bytes := [102, 105, 114, 101, 119, 111, 114, 107, 46, 101, 110, 118, 54, 52, 46]
  const EQUALS: Byte := 61

  lemma EnvPrefixesRead()
    ensures Text(ENV) == "firework.env." && Text(ENV64) == "firework.env64." && Text([EQUALS]) == "="
  {
  }

  predicate HasAsciiSpace(value: Bytes) {
    exists i :: 0 <= i < |value| && AsciiSpace(value[i])
  }

  /** envKernelArg */
  function EnvKernelArg(key: Bytes, value: Bytes): Bytes {
    if HasAsciiSpace(value) then ENV64 + key + [EQUALS] + Encode(value)
    else ENV + key + [EQUALS] + value
  }

  /** strings.Cut at the first "="; |s| when there is none. */
  function EqualsAt(s: Bytes): (i: nat)
    ensures i <= |s| && (i < |s| ==> s[i] == EQUALS)
    ensures forall k :: 0 <= k < i ==> s[k] != EQUALS
  {
    if s == [] then 0
    else if s[0] == EQUALS then 0
    else
      var i := EqualsAt(s[1..]);
      assert forall k :: 0 < k < i + 1 ==> s[k] == s[1..][k - 1];
      i + 1
  }

  datatype Parsed = NotEnv | Undecodable | Var(key: Bytes, value: Bytes)

  /** parseFireworkEnvArg */
  function ParseEnvArg(arg: Bytes): Parsed {
    if ENV64 <= arg then
      var rest := arg[|ENV64|..];
      var i := EqualsAt(rest);
      if i == |rest| then NotEnv
      else
        match Decode(rest[i + 1..])
        case None => Undecodable
        case Some(value) => Var(rest[..i], value)
    else if ENV <= arg then
      var rest := arg[|ENV|..];
      var i := EqualsAt(rest);
      if i == |rest| then NotEnv else Var(rest[..i], rest[i + 1..])
    else NotEnv
  }

  /** What os.Setenv accepts. */
  predicate Settable(key: Bytes, value: Bytes) {
    key != [] && EQUALS !in key && 0 !in key && 0 !in value
  }

  function SetFrom(env: map<Bytes, Bytes>, arg: Bytes): map<Bytes, Bytes> {
    match ParseEnvArg(arg)
    case Var(key, value) => if Settable(key, value) then env[key := value] else env
    case _ => env
  }

  /** exportFireworkEnv over the tokens of the command line. */
  function Export(env: map<Bytes, Bytes>, tokens: seq<Bytes>): map<Bytes, Bytes> {
    if tokens == [] then env else SetFrom(Export(env, tokens[..|tokens| - 1]), tokens[|tokens| - 1])
  }

  method ExportFireworkEnv(cmdline: Bytes) returns (env: map<Bytes, Bytes>)
    ensures env == Export(map[], Fields(cmdline))
  {
    env := map[];
    var tokens := Fields(cmdline);
    var i := 0;
    while i < |tokens|
      invariant 0 <= i <= |tokens| && env == Export(map[], tokens[..i])
    {
      assert tokens[..i + 1][..i] == tokens[..i];
      var parsed := ParseEnvArg(tokens[i]);
      if parsed.Var? && Settable(parsed.key, parsed.value) {
        env := env[parsed.key := parsed.value];
      }
      i := i + 1;
    }
    assert tokens[..i] == tokens;
  }

  // ------------------------------------------------------------- one variable

  ghost predicate KeyOk(key: Bytes) {
    key != [] && EQUALS !in key && 0 !in key && Spaceless(key)
  }

  /** The values that survive: encoded because of an ASCII space, or free of any whitespace. */
  ghost predicate Survives(value: Bytes) {
    0 !in value && (HasAsciiSpace(value) || Spaceless(value))
  }

  lemma {:induction false} PlainPrefix(p: Bytes, s: Bytes)
    requires (forall c :: c in p ==> c < 128 && !AsciiSpace(c)) && Spaceless(s)
    ensures Spaceless(p + s)
  {
    forall i | 0 <= i < |p + s| ensures SpaceWidth((p + s)[i..]) == 0 {
      if i < |p| {
        assert (p + s)[i..][0] == p[i];
      } else {
        assert (p + s)[i..] == s[i - |p|..];
      }
    }
  }

  lemma WidthInKey(key: Bytes, value: Bytes, i: nat)
    requires Spaceless(key) && i < |key|
    ensures SpaceWidth((key + ([EQUALS] + value))[i..]) == 0
  {
    assert (key + ([EQUALS] + value))[i..] == key[i..] + [EQUALS] + value;
    WidthBeforeAscii(key[i..], EQUALS, value);
  }

  lemma SpacelessPair(key: Bytes, value: Bytes)
    requires Spaceless(key) && Spaceless(value)
    ensures Spaceless(key + [EQUALS] + value)
  {
    var rest := [EQUALS] + value;
    PlainPrefix([EQUALS], value);
    assert key + [EQUALS] + value == key + rest;
    forall i | 0 <= i < |key + rest| ensures SpaceWidth((key + rest)[i..]) == 0 {
      if i < |key| {
        WidthInKey(key, value, i);
      } else {
        assert (key + rest)[i..] == rest[i - |key|..];
      }
    }
  }

  lemma EncodingIsSpaceless(value: Bytes)
    ensures Spaceless(Encode(value))
  {
    EncodingIsPlain(value);
    PlainPrefix(Encode(value), []);
    assert Encode(value) + [] == Encode(value);
  }

  lemma AssignmentIsToken(prefix: Bytes, key: Bytes, body: Bytes)
    requires prefix != [] && forall c :: c in prefix ==> c < 128 && !AsciiSpace(c)
    requires Spaceless(key) && Spaceless(body)
    ensures Token(prefix + key + [EQUALS] + body)
  {
    SpacelessPair(key, body);
    PlainPrefix(prefix, key + [EQUALS] + body);
    assert prefix + (key + [EQUALS] + body) == prefix + key + [EQUALS] + body;
  }

  lemma ArgIsToken(key: Bytes, value: Bytes)
    requires KeyOk(key) && Survives(value)
    ensures Token(EnvKernelArg(key, value))
  {
    if HasAsciiSpace(value) {
      EncodingIsSpaceless(value);
      AssignmentIsToken(ENV64, key, Encode(value));
    } else {
      AssignmentIsToken(ENV, key, value);
    }
  }

  lemma EqualsAfterKey(key: Bytes, value: Bytes)
    requires EQUALS !in key
    ensures EqualsAt(key + [EQUALS] + value) == |key|
  {
    var s := key + [EQUALS] + value;
    var i := EqualsAt(s);
    assert s[|key|] == EQUALS;
    assert forall k :: 0 <= k < |key| ==> s[k] == key[k];
  }

  lemma CutAfterKey(prefix: Bytes, key: Bytes, body: Bytes)
    requires EQUALS !in key
    ensures var arg := prefix + key + [EQUALS] + body;
            var rest := arg[|prefix|..];
            prefix <= arg && EqualsAt(rest) == |key| < |rest| && rest[..|key|] == key && rest[|key| + 1..] == body
  {
    EqualsAfterKey(key, body);
    var arg := prefix + key + [EQUALS] + body;
    assert arg == prefix + (key + [EQUALS] + body);
    assert arg[|prefix|..] == key + [EQUALS] + body;
  }

  lemma RawIsNotEncoded(key: Bytes, value: Bytes)
    ensures !(ENV64 <= ENV + key + [EQUALS] + value)
  {
    var arg := ENV + key + [EQUALS] + value;
    assert arg[12] == ENV[12] != ENV64[12];
  }

  /** Parsing undoes encoding. */
  lemma ParseUndoesEncoding(key: Bytes, value: Bytes)
    requires EQUALS !in key
    ensures ParseEnvArg(EnvKernelArg(key, value)) == Var(key, value)
  {
    if HasAsciiSpace(value) {
      CutAfterKey(ENV64, key, Encode(value));
      RoundTrip(value);
    } else {
      CutAfterKey(ENV, key, value);
      RawIsNotEncoded(key, value);
    }
  }

  // ----------------------------------------------------------------- all variables

  function ArgsOf(env: map<Bytes, Bytes>, keys: seq<Bytes>): seq<Bytes>
    requires forall k :: k in keys ==> k in env
  {
    seq(|keys|, i requires 0 <= i < |keys| => EnvKernelArg(keys[i], env[keys[i]]))
  }

  /** Injecting puts the arguments in one row before the first "--", or at the end; all other
      tokens keep their order. */
  ghost predicate InjectedAs(before: seq<Bytes>, after: seq<Bytes>, args: seq<Bytes>) {
    after == before[..SeparatorAt(before)] + args + before[SeparatorAt(before)..]
  }

  lemma InjectOneMore(before: seq<Bytes>, mid: seq<Bytes>, args: seq<Bytes>, arg: Bytes)
    requires InjectedAs(before, mid, args) && SEPARATOR !in args
    ensures InjectedAs(before, Spliced(mid, [arg]), args + [arg])
  {
    var i := SeparatorAt(before);
    var j := i + |args|;
    forall k | 0 <= k < j ensures mid[k] != SEPARATOR {
      assert k >= i ==> mid[k] == args[k - i];
    }
    assert j < |mid| ==> mid[j] == before[i];
    assert SeparatorAt(mid) == j;
    assert mid[..j] == before[..i] + args && mid[j..] == before[i..];
  }

  ghost predicate EnvOk(env: map<Bytes, Bytes>) {
    forall k :: k in env ==> KeyOk(k) && Survives(env[k])
  }

  lemma ArgIsNoSeparator(key: Bytes, value: Bytes)
    ensures EnvKernelArg(key, value) != SEPARATOR
  {
    assert EnvKernelArg(key, value)[0] == 102;
  }

  ghost predicate Lists(keys: seq<Bytes>, set': set<Bytes>) {
    (forall k :: k in keys <==> k in set') && forall i, j :: 0 <= i < j < |keys| ==> keys[i] != keys[j]
  }

  /** One argument after another inserted into the command line. */
  function InsertAll(kernelArgs: Bytes, args: seq<Bytes>): Bytes {
    if args == [] then kernelArgs else Insert(InsertAll(kernelArgs, args[..|args| - 1]), args[|args| - 1])
  }

  lemma {:induction false} InsertAllSplices(kernelArgs: Bytes, args: seq<Bytes>)
    requires forall a :: a in args ==> Token(a) && a != SEPARATOR
    ensures InjectedAs(Fields(kernelArgs), Fields(InsertAll(kernelArgs, args)), args)
  {
    if args == [] {
      var parts := Fields(kernelArgs);
      assert parts[..SeparatorAt(parts)] + [] + parts[SeparatorAt(parts)..] == parts;
    } else {
      var front, arg := args[..|args| - 1], args[|args| - 1];
      assert arg in args && args == front + [arg];
      InsertAllSplices(kernelArgs, front);
      InsertSplices(InsertAll(kernelArgs, front), arg);
      TokenIsOneField(arg);
      InjectOneMore(Fields(kernelArgs), Fields(InsertAll(kernelArgs, front)), front, arg);
    }
  }

  lemma ArgsAreTokens(env: map<Bytes, Bytes>, keys: seq<Bytes>)
    requires EnvOk(env) && forall k :: k in keys ==> k in env
    ensures forall a :: a in ArgsOf(env, keys) ==> Token(a) && a != SEPARATOR
  {
    forall a | a in ArgsOf(env, keys) ensures Token(a) && a != SEPARATOR {
      var i :| 0 <= i < |keys| && ArgsOf(env, keys)[i] == a;
      assert keys[i] in keys;
      ArgIsToken(keys[i], env[keys[i]]);
      ArgIsNoSeparator(keys[i], env[keys[i]]);
    }
  }

  lemma {:induction false} ExportAppend(env: map<Bytes, Bytes>, xs: seq<Bytes>, ys: seq<Bytes>)
    ensures Export(env, xs + ys) == Export(Export(env, xs), ys)
  {
    if ys == [] {
      assert xs + ys == xs;
    } else {
      assert (xs + ys)[..|xs + ys| - 1] == xs + ys[..|ys| - 1];
      ExportAppend(env, xs, ys[..|ys| - 1]);
    }
  }

  lemma {:induction false} ExportSkips(env: map<Bytes, Bytes>, tokens: seq<Bytes>)
    requires forall t :: t in tokens ==> !ParseEnvArg(t).Var?
    ensures Export(env, tokens) == env
  {
    if tokens != [] {
      assert tokens[|tokens| - 1] in tokens;
      ExportSkips(env, tokens[..|tokens| - 1]);
    }
  }

  lemma ExportOneMore(env: map<Bytes, Bytes>, keys: seq<Bytes>)
    requires keys != [] && forall k :: k in keys ==> k in env
    ensures forall k :: k in keys[..|keys| - 1] ==> k in env
    ensures var k := keys[|keys| - 1];
            Export(map[], ArgsOf(env, keys)) ==
            SetFrom(Export(map[], ArgsOf(env, keys[..|keys| - 1])), EnvKernelArg(k, env[k]))
  {
    assert ArgsOf(env, keys)[..|keys| - 1] == ArgsOf(env, keys[..|keys| - 1]);
  }

  lemma {:induction false} ExportArgs(env: map<Bytes, Bytes>, keys: seq<Bytes>)
    requires EnvOk(env) && forall k :: k in keys ==> k in env
    ensures Export(map[], ArgsOf(env, keys)) == map k | k in keys :: env[k]
  {
    if keys != [] {
      var front, k := keys[..|keys| - 1], keys[|keys| - 1];
      assert k in keys && keys == front + [k];
      ExportOneMore(env, keys);
      ExportArgs(env, front);
      ArgSets(map x | x in front :: env[x], k, env[k]);
      assert (map x | x in front + [k] :: env[x]) == (map x | x in front :: env[x])[k := env[k]];
    }
  }

  lemma ArgSets(exported: map<Bytes, Bytes>, key: Bytes, value: Bytes)
    requires KeyOk(key) && Survives(value)
    ensures SetFrom(exported, EnvKernelArg(key, value)) == exported[key := value]
  {
    ParseUndoesEncoding(key, value);
  }

  ghost predicate NoEnvTokens(kernelArgs: Bytes) {
    forall t :: t in Fields(kernelArgs) ==> !ParseEnvArg(t).Var?
  }

  /** The round trip: what the guest exports from the command line the agent wrote is exactly
      the environment it was given; the other tokens keep their order and every injected one
      comes before "--". */
  lemma EnvironmentRoundTrip(kernelArgs: Bytes, env: map<Bytes, Bytes>, keys: seq<Bytes>)
    requires EnvOk(env) && Lists(keys, env.Keys) && NoEnvTokens(kernelArgs)
    ensures var cmdline := InsertAll(kernelArgs, ArgsOf(env, keys));
            && Export(map[], Fields(cmdline)) == env
            && InjectedAs(Fields(kernelArgs), Fields(cmdline), ArgsOf(env, keys))
  {
    var base, i, args := Fields(kernelArgs), SeparatorAt(Fields(kernelArgs)), ArgsOf(env, keys);
    ArgsAreTokens(env, keys);
    InsertAllSplices(kernelArgs, args);
    ExportSplice(base, i, args);
    ExportArgs(env, keys);
    assert (map k | k in keys :: env[k]) == env;
  }

  lemma ExportSplice(base: seq<Bytes>, i: nat, args: seq<Bytes>)
    requires i <= |base| && forall t :: t in base ==> !ParseEnvArg(t).Var?
    ensures Export(map[], base[..i] + args + base[i..]) == Export(map[], args)
  {
    ExportSkips(map[], base[..i]);
    ExportAppend(map[], base[..i], args);
    ExportAppend(map[], base[..i] + args, base[i..]);
    ExportSkips(Export(map[], args), base[i..]);
  }

  // ------------------------------------------------------------------ in order of the keys

  /** sort.Strings compares bytes. */
  predicate KeyBefore(a: Bytes, b: Bytes) {
    Ordering.Less(Text(a), Text(b))
  }

  lemma TextTellsBytes(a: Bytes, b: Bytes)
    requires Text(a) == Text(b)
    ensures a == b
  {
    forall i | 0 <= i < |a| ensures a[i] == b[i] {
      assert Text(a)[i] == Text(b)[i];
    }
  }

  lemma KeysOrder(keys: seq<Bytes>)
    requires forall i, j :: 0 <= i < j < |keys| ==> keys[i] != keys[j]
    ensures Ordering.StrictOn(KeyBefore, keys)
  {
    forall i, j | 0 <= i < j < |keys| ensures Text(keys[i]) != Text(keys[j]) {
      if Text(keys[i]) == Text(keys[j]) {
        TextTellsBytes(keys[i], keys[j]);
      }
    }
    Ordering.KeysOrderStrictly(KeyBefore, Text, keys);
  }

  /** The keys of a map have one order. */
  ghost predicate InKeyOrder(keys: seq<Bytes>, env: map<Bytes, Bytes>) {
    Lists(keys, env.Keys) && Ordering.Sorted(KeyBefore, keys)
  }

  lemma SortedKeys(keys: seq<Bytes>, env: map<Bytes, Bytes>)
    requires Lists(keys, env.Keys)
    ensures InKeyOrder(Ordering.SortBy(KeyBefore, keys), env)
  {
    var sorted := Ordering.SortBy(KeyBefore, keys);
    KeysOrder(keys);
    Ordering.SortSorts(KeyBefore, keys);
    Ordering.SameElements(sorted, keys);
    forall i, j | 0 <= i < j < |sorted| ensures sorted[i] != sorted[j] {
      Ordering.LessIsTotal(Text(sorted[i]), Text(sorted[j]));
      assert KeyBefore(sorted[i], sorted[j]);
    }
  }

  /** Whatever order the map hands its keys out in, the command line is the same. */
  lemma KeyOrderIsUnique(keys: seq<Bytes>, keys': seq<Bytes>, env: map<Bytes, Bytes>)
    requires InKeyOrder(keys, env) && InKeyOrder(keys', env)
    ensures keys == keys'
  {
    KeysOrder(keys);
    KeysOrder(keys');
    SameListing(keys, keys');
    Ordering.SortedIsUnique(KeyBefore, keys, keys');
  }

  lemma SameListing(xs: seq<Bytes>, ys: seq<Bytes>)
    requires forall k :: k in xs <==> k in ys
    requires forall i, j :: 0 <= i < j < |xs| ==> xs[i] != xs[j]
    requires forall i, j :: 0 <= i < j < |ys| ==> ys[i] != ys[j]
    ensures multiset(xs) == multiset(ys)
  {
    forall k ensures multiset(xs)[k] == multiset(ys)[k] {
      CountsOnce(xs, k);
      CountsOnce(ys, k);
    }
  }

  lemma {:induction false} CountsOnce(xs: seq<Bytes>, k: Bytes)
    requires forall i, j :: 0 <= i < j < |xs| ==> xs[i] != xs[j]
    ensures multiset(xs)[k] == if k in xs then 1 else 0
  {
    if xs != [] {
      assert xs == [xs[0]] + xs[1..];
      CountsOnce(xs[1..], k);
    }
  }

  /** injectEnvVars for one service: one argument per variable, inserted in the byte order of
      the keys, and the guest gets the environment back. */
  method InjectEnvVars(kernelArgs: Bytes, env: map<Bytes, Bytes>) returns (r: Bytes)
    ensures exists keys :: InKeyOrder(keys, env) && r == InsertAll(kernelArgs, ArgsOf(env, keys))
    ensures EnvOk(env) && NoEnvTokens(kernelArgs) ==> Export(map[], Fields(r)) == env
  {
    var keys := KeysOf(env);
    SortedKeys(keys, env);
    keys := Ordering.SortBy(KeyBefore, keys);
    r := kernelArgs;
    for i := 0 to |keys|
      invariant r == InsertAll(kernelArgs, ArgsOf(env, keys)[..i])
    {
      assert ArgsOf(env, keys)[..i + 1][..i] == ArgsOf(env, keys)[..i];
      r := InsertKernelArg(r, EnvKernelArg(keys[i], env[keys[i]]));
    }
    assert ArgsOf(env, keys)[..|keys|] == ArgsOf(env, keys);
    if EnvOk(env) && NoEnvTokens(kernelArgs) {
      EnvironmentRoundTrip(kernelArgs, env, keys);
    }
  }

  /** The keys of a map, in whatever order it hands them out. */
  method KeysOf(env: map<Bytes, Bytes>) returns (keys: seq<Bytes>)
    ensures Lists(keys, env.Keys)
  {
    keys := [];
    var todo := env.Keys;
    while todo != {}
      invariant todo <= env.Keys && Lists(keys, env.Keys - todo)
      decreases |todo|
    {
      var k :| k in todo;
      keys, todo := keys + [k], todo - {k};
    }
  }

  // ------------------------------------------------------------------ exactly which values

  lemma {:induction false} ValuesAreShort(s: Bytes)
    ensures Values(s).Some? ==> |Values(s).value| <= |s|
  {
    if s != [] {
      ValuesAreShort(s[1..]);
    }
  }

  lemma {:induction false} JoinIsShort(vs: seq<Sextet>)
    ensures Join(vs).Some? ==> |Join(vs).value| <= |vs|
  {
    if |vs| >= 4 {
      JoinIsShort(vs[4..]);
    }
  }

  /** A token is longer than the key and value it carries. */
  lemma ParsedIsShort(t: Bytes)
    ensures ParseEnvArg(t).Var? ==> |ParseEnvArg(t).value| + |ParseEnvArg(t).key| + |ENV| + 1 <= |t|
  {
    if ENV64 <= t {
      var rest := t[|ENV64|..];
      var i := EqualsAt(rest);
      if i < |rest| {
        ValuesAreShort(rest[i + 1..]);
        if Values(rest[i + 1..]).Some? {
          JoinIsShort(Values(rest[i + 1..]).value);
        }
      }
    }
  }

  lemma {:induction false} ExportIsShort(tokens: seq<Bytes>, key: Bytes, n: nat)
    requires forall t :: t in tokens ==> |t| < n
    ensures key in Export(map[], tokens) ==>
              0 !in Export(map[], tokens)[key] && |Export(map[], tokens)[key]| + |key| + |ENV| + 1 < n
  {
    if tokens != [] {
      assert tokens[|tokens| - 1] in tokens;
      ExportIsShort(tokens[..|tokens| - 1], key, n);
      ParsedIsShort(tokens[|tokens| - 1]);
    }
  }

  lemma LostWhenSplit(key: Bytes, value: Bytes)
    requires !HasAsciiSpace(value) && !Spaceless(value)
    ensures Export(map[], Fields(EnvKernelArg(key, value))) != map[key := value]
  {
    var arg := EnvKernelArg(key, value);
    var i :| 0 <= i < |value| && SpaceWidth(value[i..]) != 0;
    var at := |ENV| + |key| + 1 + i;
    assert arg[at..] == value[i..];
    forall t | t in Fields(arg) ensures |t| < |arg| {
      FieldsAreShort([], arg, t);
    }
    ExportIsShort(Fields(arg), key, |arg|);
    assert |arg| == |ENV| + |key| + 1 + |value|;
    assert key in map[key := value];
  }

  lemma NulIsNeverExported(tokens: seq<Bytes>, key: Bytes, value: Bytes, n: nat)
    requires 0 in value && forall t :: t in tokens ==> |t| < n
    ensures Export(map[], tokens) != map[key := value]
  {
    ExportIsShort(tokens, key, n);
    assert key in map[key := value];
  }

  /** For a single variable: the guest gets it back exactly when its value holds no zero byte
      and either an ASCII space (it is then encoded) or no whitespace at all. A value whose
      only whitespace is not ASCII, such as a no-break space, is torn apart. */
  lemma ValueSurvivesExactly(kernelArgs: Bytes, key: Bytes, value: Bytes)
    requires KeyOk(key) && NoEnvTokens(kernelArgs)
    ensures Export(map[], Fields(Insert(kernelArgs, EnvKernelArg(key, value)))) == map[key := value] <==>
              Survives(value)
  {
    var arg, base := EnvKernelArg(key, value), Fields(kernelArgs);
    InsertSplices(kernelArgs, arg);
    ExportSplice(base, SeparatorAt(base), Fields(arg));
    if Survives(value) {
      ArgIsToken(key, value);
      TokenIsOneField(arg);
      ParseUndoesEncoding(key, value);
      var one: seq<Bytes> := [arg];
      assert one[..|one| - 1] == [];
      assert Export(map[], one) == SetFrom(map[], arg);
    } else if 0 in value {
      forall t | t in Fields(arg) ensures |t| < |arg| + 1 {
        FieldsAreShort([], arg, t);
      }
      NulIsNeverExported(Fields(arg), key, value, |arg| + 1);
    } else {
      LostWhenSplit(key, value);
    }
  }

  /** It happens: a no-break space (U+00A0) between two letters. */
  lemma NoBreakSpaceIsTornApart(kernelArgs: Bytes, key: Bytes)
    requires KeyOk(key) && NoEnvTokens(kernelArgs)
    ensures var value := [97, 0xC2, 0xA0, 98];
            Export(map[], Fields(Insert(kernelArgs, EnvKernelArg(key, value)))) != map[key := value]
  {
    var value: Bytes := [97, 0xC2, 0xA0, 98];
    assert SpaceWidth(value[1..]) == 2;
    ValueSurvivesExactly(kernelArgs, key, value);
  }
}
