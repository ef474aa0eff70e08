/** Volumes as an application declares them, and what the enricher makes of them: sizes are
    read, missing ones come from the defaults, and the rest is left to the system. */
module VolumeSpecs {
  import opened Types
  import opened Ordering
  import opened VolumeOrder

  const MIB := 1024 * 1024
  const GIB := 1024 * MIB
  const MAX_INT64 := 0x7FFF_FFFF_FFFF_FFFF
  const FALLBACK_SIZE := "10Gi"

  // ---------------------------------------------------------------------------- sizes

  function TrimSpace(s: string): string {
    if s == "" then s
    else if Space(s[0]) then TrimSpace(s[1..])
    else if Space(s[|s| - 1]) then TrimSpace(s[..|s| - 1])
    else s
  }

  function Digits(s: string): Option<int> {
    if s == "" then Some(0)
    else if !('0' <= s[|s| - 1] <= '9') then None
    else
      match Digits(s[..|s| - 1])
      case None => None
      case Some(n) => Some(10 * n + (s[|s| - 1] - '0') as int)
  }

  /** strconv.ParseInt to base 10: an optional sign, digits, and 64 bits. */
  function ParseInt(s: string): Option<int> {
    var signed := s != "" && (s[0] == '+' || s[0] == '-');
    var digits := if signed then s[1..] else s;
    if digits == "" then None
    else
      match Digits(digits)
      case None => None
      case Some(n) =>
        var value := if signed && s[0] == '-' then -n else n;
        if -MAX_INT64 - 1 <= value <= MAX_INT64 then Some(value) else None
  }

  predicate HasSuffix(s: string, suffix: string) {
    |suffix| <= |s| && s[|s| - |suffix|..] == suffix
  }

  /** `number` units in bytes, if it is positive and they fit 64 bits. */
  function Scaled(number: Option<int>, unit: int): (size: Option<int>)
    requires unit > 0
    ensures size.Some? ==> 0 < size.value <= MAX_INT64
  {
    if number.None? || number.value <= 0 || number.value > MAX_INT64 / unit then None
    else
      ProductFits(number.value, unit, MAX_INT64);
      Some(number.value * unit)
  }

  /** A positive number of Mi or Gi; None is an error. */
  function ParseVolumeSize(value: string): (size: Option<int>)
    ensures size.Some? ==> 0 < size.value <= MAX_INT64
  {
    var s := TrimSpace(value);
    if HasSuffix(s, "Mi") then Scaled(ParseInt(s[..|s| - 2]), MIB)
    else if HasSuffix(s, "Gi") then Scaled(ParseInt(s[..|s| - 2]), GIB)
    else None
  }

  /** The overflow test of parseSize is exact. */
  lemma ProductFits(n: int, unit: int, max: int)
    requires unit > 0 && n > 0
    ensures n <= max / unit <==> n * unit <= max
    ensures n * unit > 0
  {
    var q, rest := max / unit, max % unit;
    assert max == q * unit + rest;
    if n <= q {
      assert n * unit <= q * unit;
    } else {
      assert n * unit >= (q + 1) * unit == q * unit + unit;
    }
  }

  /** A number in decimal. */
  function Decimal(n: nat): string {
    (if n < 10 then "" else Decimal(n / 10)) + ['0' + (n % 10) as char]
  }

  lemma {:induction false} DigitsOfDecimal(n: nat)
    ensures Digits(Decimal(n)) == Some(n) && Decimal(n) != "" && '0' <= Decimal(n)[0] <= '9'
  {
    var s := Decimal(n);
    if n < 10 {
      assert s[..|s| - 1] == "";
    } else {
      DigitsOfDecimal(n / 10);
      assert s[..|s| - 1] == Decimal(n / 10);
    }
  }

  /** A number of Mi or Gi is read back exactly when it is positive and its bytes fit 64 bits. */
  lemma SizeReadsBack(n: nat)
    ensures ParseVolumeSize(Decimal(n) + "Mi") ==
            if 0 < n * 1048576 <= MAX_INT64 then Some(n * 1048576) else None
    ensures ParseVolumeSize(Decimal(n) + "Gi") ==
            if 0 < n * 1073741824 <= MAX_INT64 then Some(n * 1073741824) else None
  {
    DigitsOfDecimal(n);
    NumberIsRead(Decimal(n), n);
    SizeIsRead(Decimal(n));
    if n > 0 {
      ProductFits(n, MIB, MAX_INT64);
      ProductFits(n, GIB, MAX_INT64);
    }
  }

  /** Space around a size is ignored. */
  lemma SpaceAroundSizes(s: string, c: char)
    requires Space(c)
    ensures ParseVolumeSize([c] + s) == ParseVolumeSize(s) && ParseVolumeSize(s + [c]) == ParseVolumeSize(s)
  {
    TrimsBoth(s, c);
  }

  /** A sign is read, so only a plus can be in front of a size. */
  lemma SignsAreRead(n: int)
    requires 0 <= n <= MAX_INT64
    ensures ParseInt("+" + Decimal(n)) == Some(n) && ParseInt("-" + Decimal(n)) == Some(-n)
  {
    DigitsOfDecimal(n);
    assert ("+" + Decimal(n))[1..] == Decimal(n) && ("-" + Decimal(n))[1..] == Decimal(n);
  }

  lemma {:induction false} TrimsBoth(s: string, c: char)
    requires Space(c)
    ensures TrimSpace([c] + s) == TrimSpace(s) && TrimSpace(s + [c]) == TrimSpace(s)
    decreases |s|
  {
    assert ([c] + s)[1..] == s;
    if s != [] && Space(s[0]) {
      assert (s + [c])[1..] == s[1..] + [c];
      TrimsBoth(s[1..], c);
    } else if s != [] {
      assert (s + [c])[..|s|] == s;
    } else {
      assert s + [c] == [c] + s;
    }
  }

  lemma SizeIsRead(digits: string)
    requires digits != "" && '0' <= digits[0] <= '9'
    ensures ParseVolumeSize(digits + "Mi") == Scaled(ParseInt(digits), MIB)
    ensures ParseVolumeSize(digits + "Gi") == Scaled(ParseInt(digits), GIB)
  {
    SuffixIsFound(digits, "Mi");
    SuffixIsFound(digits, "Gi");
    TrimsNothing(digits + "Mi");
    TrimsNothing(digits + "Gi");
  }

  lemma TrimsNothing(s: string)
    requires s != "" && !Space(s[0]) && !Space(s[|s| - 1])
    ensures TrimSpace(s) == s
  {
  }

  lemma SuffixIsFound(digits: string, suffix: string)
    requires suffix == "Mi" || suffix == "Gi"
    ensures var s := digits + suffix;
            s[..|s| - 2] == digits && (HasSuffix(s, "Mi") <==> suffix == "Mi")
              && (HasSuffix(s, "Gi") <==> suffix == "Gi")
  {
    var s := digits + suffix;
    assert s[|s| - 2..] == suffix && s[|s| - 2] == suffix[0];
  }

  lemma NumberIsRead(digits: string, n: nat)
    requires Digits(digits) == Some(n) && digits != "" && '0' <= digits[0] <= '9'
    ensures ParseInt(digits) == if n <= MAX_INT64 then Some(n) else None
  {
  }

  // ------------------------------------------------------------------------ declarations

  /** `declared` is decoded whole, so that system-owned fields can be objected to. */
  datatype VolumeSpec = VolumeSpec(declared: VolumeConfig, size: string)

  datatype VolumeDefaults = VolumeDefaults(localSize: string, sharedSize: string)

  /** validateVolumeDefaults */
  predicate DefaultsAccepted(defs: VolumeDefaults) {
    (defs.localSize == "" || ParseVolumeSize(defs.localSize).Some?)
      && (defs.sharedSize == "" || ParseVolumeSize(defs.sharedSize).Some?)
  }

  function Coalesce(a: string, b: string): string {
    if a != "" then a else b
  }

  function SizeFor(spec: VolumeSpec, defs: VolumeDefaults): string {
    if spec.size != "" then spec.size
    else
      match spec.declared.vtype
      case Local => Coalesce(defs.localSize, FALLBACK_SIZE)
      case Shared => Coalesce(defs.sharedSize, FALLBACK_SIZE)
      case Unknown => ""
  }

  function ResolveOne(spec: VolumeSpec, defs: VolumeDefaults): VolumeConfig {
    var size := ParseVolumeSize(SizeFor(spec, defs));
    var v := spec.declared;
    VolumeConfig(v.name, v.vtype, v.mountPath, if size.Some? then size.value else 0, "", "", 0)
  }

  function Resolved(specs: seq<VolumeSpec>, defs: VolumeDefaults): (volumes: seq<VolumeConfig>)
    ensures |volumes| == |specs|
  {
    var unsorted := Images((spec: VolumeSpec) => ResolveOne(spec, defs), specs);
    SortPermutes(VolumeBefore, unsorted);
    SameElements(SortBy(VolumeBefore, unsorted), unsorted);
    SortBy(VolumeBefore, unsorted)
  }

  method ResolveVolumes(specs: seq<VolumeSpec>, defs: VolumeDefaults) returns (volumes: seq<VolumeConfig>)
    ensures volumes == Resolved(specs, defs)
  {
    volumes := [];
    for i := 0 to |specs|
      invariant volumes == Images((spec: VolumeSpec) => ResolveOne(spec, defs), specs[..i])
    {
      var spec := specs[i];
      var size := spec.size;
      if size == "" {
        match spec.declared.vtype {
          case Local => size := Coalesce(defs.localSize, FALLBACK_SIZE);
          case Shared => size := Coalesce(defs.sharedSize, FALLBACK_SIZE);
          case Unknown =>
        }
      }
      var bytes := ParseVolumeSize(size);
      volumes := volumes + [VolumeConfig(spec.declared.name, spec.declared.vtype, spec.declared.mountPath,
                                         if bytes.Some? then bytes.value else 0, "", "", 0)];
    }
    assert specs[..|specs|] == specs;
    volumes := SortBy(VolumeBefore, volumes);
  }

  /** A volume has its declared size, or else the default of its own type, or else 10 Gi. */
  lemma SizesComeFrom(spec: VolumeSpec, defs: VolumeDefaults)
    ensures var own, local, shared := spec.size, defs.localSize, defs.sharedSize;
            var text :=
              if own != "" then own
              else if spec.declared.vtype.Local? && local != "" then local
              else if spec.declared.vtype.Shared? && shared != "" then shared
              else if spec.declared.vtype.Unknown? then "" else "10Gi";
            ResolveOne(spec, defs).sizeBytes == match ParseVolumeSize(text) case Some(size) => size case None => 0
    ensures ParseVolumeSize("10Gi") == Some(10737418240)
  {
    FallbackReads();
  }

  /** A declared size that can be read, or the defaults, give every volume a positive size. */
  lemma SizesArePositive(spec: VolumeSpec, defs: VolumeDefaults)
    requires DefaultsAccepted(defs) && !spec.declared.vtype.Unknown?
    requires (spec.size != "" ==> ParseVolumeSize(spec.size).Some?)
    ensures 0 < ResolveOne(spec, defs).sizeBytes <= MAX_INT64
  {
    FallbackReads();
  }

  lemma FallbackReads()
    ensures ParseVolumeSize(FALLBACK_SIZE) == Some(10 * GIB)
  {
    var s := FALLBACK_SIZE;
    assert TrimSpace(s) == s && s[..2] == "10" && s[2..] == "Gi";
    assert Decimal(1) == "1" && Decimal(10) == "10";
    DigitsOfDecimal(10);
  }
}
