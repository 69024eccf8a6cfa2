/** OTAPreoptParameters: reading the command line of otapreopt in all the versions it has had. */
module OtaParameters {
  import opened Options
  import opened OtaPaths

  /** nullptr, or a string. */
  type Text = Option<string>

  /** The fields of OTAPreoptParameters. */
  datatype Values = Values(
    targetSlot: string, apkPath: Text, uid: int, pkgName: Text, instructionSet: Text, dexoptNeeded: int,
    oatDir: Text, dexoptFlags: int, compilerFilter: Text, volumeUuid: Text, sharedLibraries: Text,
    seInfo: Text, downgrade: bool, targetSdkVersion: int, profileName: Text, dexMetadataPath: Text,
    compilationReason: Text)

  // ---------- text ----------

  predicate IsDigit(c: char) { '0' <= c <= '9' }

  predicate IsSpace(c: char) { c == ' ' || 9 as char <= c <= 13 as char }

  function Digits(s: string, n: int): int {
    if s == "" || !IsDigit(s[0]) then n else Digits(s[1..], n * 10 + (s[0] as int - '0' as int))
  }

  /** atoi, for numbers that fit */
  function Atoi(s: string): int {
    if s == "" then 0
    else if IsSpace(s[0]) then Atoi(s[1..])
    else if s[0] == '-' then -Digits(s[1..], 0)
    else if s[0] == '+' then Digits(s[1..], 0)
    else Digits(s, 0)
  }

  function Decimal(n: nat): string {
    (if n < 10 then "" else Decimal(n / 10)) + [('0' as int + n % 10) as char]
  }

  function ParseNull(arg: string): Text {
    if arg == "!" then None else Some(arg)
  }

  function ParseBool(arg: string): bool {
    arg == "true"
  }

  lemma {:induction false} DigitsAppend(s: string, c: char, n: int)
    requires IsDigit(c) && forall d <- s :: IsDigit(d)
    ensures Digits(s + [c], n) == Digits(s, n) * 10 + (c as int - '0' as int)
    decreases |s|
  {
    if s == "" {
      assert [c][1..] == "";
    } else {
      assert (s + [c])[1..] == s[1..] + [c];
      assert s[0] in s;
      DigitsAppend(s[1..], c, n * 10 + (s[0] as int - '0' as int));
    }
  }

  lemma {:induction false} DecimalDigits(n: nat)
    ensures Decimal(n) != "" && (forall d <- Decimal(n) :: IsDigit(d)) && Digits(Decimal(n), 0) == n
  {
    var c := ('0' as int + n % 10) as char;
    if n < 10 {
      assert Decimal(n) == "" + [c];
      DigitsAppend("", c, 0);
    } else {
      DecimalDigits(n / 10);
      DigitsAppend(Decimal(n / 10), c, 0);
    }
  }

  lemma AtoiDecimal(n: nat)
    ensures Atoi(Decimal(n)) == n
  {
    DecimalDigits(n);
    assert Decimal(n)[0] in Decimal(n);
  }

  // ---------- flags ----------

  const PUBLIC := 2
  const DEBUGGABLE := 4
  const BOOTCOMPLETE := 8
  const PROFILE_GUIDED := 16
  const GENERATE_COMPACT_DEX := 2048

  const OLD_PUBLIC := 2
  const OLD_DEBUGGABLE := 8
  const OLD_BOOTCOMPLETE := 16
  const OLD_PROFILE_GUIDED := 32

  const DEX2OAT_FROM_SCRATCH := 1

  /** Whether the bit with value `mask` is set, in two's complement. */
  predicate Has(flags: int, mask: nat)
    requires mask > 0
  {
    flags / mask % 2 == 1
  }

  /** flags | mask, for a mask of one bit */
  function With(flags: int, mask: nat): int
    requires mask > 0
  {
    if Has(flags, mask) then flags else flags + mask
  }

  /** flags | ReplaceMask(input, old, new) */
  function Replaced(flags: int, input: int, old': nat, mask: nat): int
    requires old' > 0 && mask > 0
  {
    if Has(input, old') then With(flags, mask) else flags
  }

  /** The version 1 flags in the present numbering, on top of `flags`. */
  function Remapped(flags: int, input: int): int {
    Replaced(Replaced(Replaced(Replaced(flags,
      input, OLD_PUBLIC, PUBLIC),
      input, OLD_DEBUGGABLE, DEBUGGABLE),
      input, OLD_BOOTCOMPLETE, BOOTCOMPLETE),
      input, OLD_PROFILE_GUIDED, PROFILE_GUIDED)
  }

  /** The remapped flags are a small number, and starting from the compact-dex flag only adds that flag. */
  lemma RemappedSmall(input: int)
    ensures 0 <= Remapped(0, input) < 32
    ensures Remapped(GENERATE_COMPACT_DEX, input) == With(Remapped(0, input), GENERATE_COMPACT_DEX)
  {}

  // ---------- reading ----------

  /** SetDefaultsForPostV1Arguments */
  function Defaults(p: Values): Values {
    p.(seInfo := None, downgrade := false, targetSdkVersion := 0, profileName := Some("primary.prof"),
       dexMetadataPath := None, compilationReason := Some("ab-ota"), dexoptFlags := GENERATE_COMPACT_DEX)
  }

  /** The switch of ReadArgumentsV1 */
  function SetV1(p: Values, index: nat, arg: string): Values {
    match index
    case 0 => p.(apkPath := Some(arg))
    case 1 => p.(uid := Atoi(arg))
    case 2 => p.(pkgName := Some(arg))
    case 3 => p.(instructionSet := Some(arg))
    case 4 => p.(dexoptNeeded := DEX2OAT_FROM_SCRATCH)
    case 5 => p.(oatDir := Some(arg))
    case 6 => p.(dexoptFlags := Remapped(p.dexoptFlags, Atoi(arg)))
    case 7 => p.(compilerFilter := Some(arg))
    case 8 => p.(volumeUuid := ParseNull(arg))
    case 9 => p.(sharedLibraries := ParseNull(arg))
    case _ => p
  }

  /** The switch of ReadArgumentsPostV1 */
  function SetPostV1(p: Values, version: nat, index: nat, arg: string): Values {
    match index
    case 0 => p.(apkPath := Some(arg))
    case 1 => p.(uid := Atoi(arg))
    case 2 => p.(pkgName := Some(arg))
    case 3 => p.(instructionSet := Some(arg))
    case 4 => p.(dexoptNeeded := Atoi(arg))
    case 5 => p.(oatDir := Some(arg))
    case 6 => p.(dexoptFlags := if version < 8 then With(Atoi(arg), GENERATE_COMPACT_DEX) else Atoi(arg))
    case 7 => p.(compilerFilter := Some(arg))
    case 8 => p.(volumeUuid := ParseNull(arg))
    case 9 => p.(sharedLibraries := ParseNull(arg))
    case 10 => p.(seInfo := ParseNull(arg))
    case 11 => p.(downgrade := ParseBool(arg))
    case 12 => p.(targetSdkVersion := Atoi(arg))
    case 13 => p.(profileName := ParseNull(arg))
    case 14 => p.(dexMetadataPath := ParseNull(arg))
    case 15 => p.(compilationReason := ParseNull(arg))
    case _ => p
  }

  function AllV1(p: Values, args: seq<string>): Values {
    if args == [] then p else SetV1(AllV1(p, args[..|args| - 1]), |args| - 1, args[|args| - 1])
  }

  function AllPostV1(p: Values, version: nat, args: seq<string>): Values {
    if args == [] then p else SetPostV1(AllPostV1(p, version, args[..|args| - 1]), version, |args| - 1, args[|args| - 1])
  }

  /** The number of arguments each version expects, 0 for an unknown version. */
  function Arity(version: nat): nat {
    if 2 <= version <= 7 then 9 + version else if 8 <= version <= 10 then 16 else 0
  }

  /** ReadArgumentsV1, on the arguments after "dexopt" */
  function ReadV1(p: Values, args: seq<string>): Option<Values> {
    if |args| == 10 then Some(AllV1(Defaults(p), args)) else None
  }

  /** Whether ReadArgumentsPostV1 gets as far as assigning anything. */
  predicate FitsVersion(version: nat, rest: seq<string>) {
    Arity(version) != 0 && rest != [] && rest[0] == "dexopt" && |rest| - 1 == Arity(version)
  }

  /** ReadArgumentsPostV1, on what follows the version, if there is one */
  function ReadPostV1(p: Values, version: nat, rest: seq<string>): Option<Values> {
    if !FitsVersion(version, rest) then None
    else
      var r := AllPostV1(Defaults(p), version, rest[1..]);
      if version < 10 && r.sharedLibraries == Some("&") then None else Some(r)
  }

  /** ReadArguments.  `parse` is strtoll with base 0 and the range check of ParseUInt. */
  function Read(p: Values, argv: seq<string>, parse: string -> Option<nat>): Option<Values> {
    if |argv| < 3 || !ValidSlot(argv[1]) then None
    else
      var q := p.(targetSlot := argv[1]);
      if argv[2] == "dexopt" then
        if |argv| == 14 then ReadPostV1(q, 2, argv[2..]) else ReadV1(q, argv[3..])
      else
        match parse(argv[2])
        case None => None
        case Some(version) => ReadPostV1(q, version, argv[3..])
  }

  /** The fields after a later version was read or rejected: those of its arguments as soon as their number
      is right, even if the shared libraries are not. */
  function FieldsPostV1(p: Values, version: nat, rest: seq<string>): Values {
    if FitsVersion(version, rest) then AllPostV1(Defaults(p), version, rest[1..]) else p
  }

  /** The fields after a line was read or rejected.  A slot is stored even if it is not legal, and version 1
      stores the first ten arguments of a line of any length. */
  function Fields(p: Values, argv: seq<string>, parse: string -> Option<nat>): Values {
    if |argv| < 2 then p
    else
      var q := p.(targetSlot := argv[1]);
      if |argv| < 3 || !ValidSlot(argv[1]) then q
      else if argv[2] == "dexopt" then
        if |argv| == 14 then FieldsPostV1(q, 2, argv[2..]) else AllV1(Defaults(q), argv[3..])
      else
        match parse(argv[2])
        case None => q
        case Some(version) => FieldsPostV1(q, version, argv[3..])
  }

  /** Version 1 has no use for an eleventh argument. */
  lemma {:induction false} TenArguments(p: Values, args: seq<string>)
    requires |args| >= 10
    ensures AllV1(p, args) == AllV1(p, args[..10])
    decreases |args|
  {
    if |args| == 10 {
      assert args[..10] == args;
    } else {
      TenArguments(p, args[..|args| - 1]);
      assert args[..|args| - 1][..10] == args[..10];
    }
  }

  /** The parameter object. */
  class Parameters {
    var values: Values

    constructor (values: Values)
      ensures this.values == values
    {
      this.values := values;
    }

    method ReadArguments(argv: seq<string>, parse: string -> Option<nat>) returns (ok: bool)
      modifies this
      ensures ok <==> Read(old(values), argv, parse).Some?
      ensures ok ==> values == Read(old(values), argv, parse).value
      ensures values == Fields(old(values), argv, parse)
    {
      hide AllV1, AllPostV1;
      if |argv| < 2 {
        return false;
      }
      values := values.(targetSlot := argv[1]);
      if !ValidSlot(argv[1]) || |argv| < 3 {
        return false;
      }
      if argv[2] == "dexopt" {
        if |argv| == 14 {
          ok := ReadArgumentsPostV1(2, argv[2..]);
        } else {
          ok := ReadArgumentsV1(argv[3..]);
        }
        return;
      }
      var version := parse(argv[2]);
      if version.None? {
        return false;
      }
      ok := ReadArgumentsPostV1(version.value, argv[3..]);
    }

    method ReadArgumentsV1(args: seq<string>) returns (ok: bool)
      modifies this
      ensures ok <==> ReadV1(old(values), args).Some?
      ensures ok ==> values == ReadV1(old(values), args).value
      ensures values == AllV1(Defaults(old(values)), args)
    {
      hide SetV1, Defaults;
      values := Defaults(values);
      ghost var p := values;
      var index := 0;
      while index < |args|
        invariant 0 <= index <= |args| && index <= 10 && values == AllV1(p, args[..index])
      {
        if index >= 10 {
          TenArguments(p, args);
          return false;
        }
        assert args[..index + 1][..index] == args[..index];
        values := SetV1(values, index, args[index]);
        index := index + 1;
      }
      assert args[..index] == args;
      ok := index == 10;
    }

    method ReadArgumentsPostV1(version: nat, rest: seq<string>) returns (ok: bool)
      modifies this
      ensures ok <==> ReadPostV1(old(values), version, rest).Some?
      ensures ok ==> values == ReadPostV1(old(values), version, rest).value
      ensures values == FieldsPostV1(old(values), version, rest)
    {
      hide SetPostV1, Defaults;
      var expected := Arity(version);
      if expected == 0 || rest == [] || rest[0] != "dexopt" || |rest| - 1 != expected {
        return false;
      }
      var args := rest[1..];
      values := Defaults(values);
      ghost var p := values;
      var index := 0;
      while index < |args|
        invariant 0 <= index <= |args| && values == AllPostV1(p, version, args[..index])
      {
        assert args[..index + 1][..index] == args[..index];
        values := SetPostV1(values, version, index, args[index]);
        index := index + 1;
      }
      assert args[..index] == args;
      ok := !(version < 10 && values.sharedLibraries == Some("&"));
    }
  }

  // ---------- every argument goes to its own field ----------

  lemma {:induction false} Unfold(p: Values, v: nat, args: seq<string>)
    ensures AllPostV1(p, v, args) ==
            if args == [] then p
            else SetPostV1(AllPostV1(p, v, args[..|args| - 1]), v, |args| - 1, args[|args| - 1])
  {}

  lemma {:induction false} FirstFields(p: Values, v: nat, args: seq<string>)
    ensures var r := AllPostV1(p, v, args);
            && r.targetSlot == p.targetSlot
            && r.apkPath == (if |args| > 0 then Some(args[0]) else p.apkPath)
            && r.uid == (if |args| > 1 then Atoi(args[1]) else p.uid)
            && r.pkgName == (if |args| > 2 then Some(args[2]) else p.pkgName)
            && r.instructionSet == (if |args| > 3 then Some(args[3]) else p.instructionSet)
            && r.dexoptNeeded == (if |args| > 4 then Atoi(args[4]) else p.dexoptNeeded)
    decreases |args|
  {
    hide Atoi, With, ParseNull, ParseBool, AllPostV1;
    Unfold(p, v, args);
    if args != [] {
      FirstFields(p, v, args[..|args| - 1]);
    }
  }

  lemma {:induction false} MiddleFields(p: Values, v: nat, args: seq<string>)
    ensures var r := AllPostV1(p, v, args);
            && r.oatDir == (if |args| > 5 then Some(args[5]) else p.oatDir)
            && r.dexoptFlags == (if |args| <= 6 then p.dexoptFlags
                                 else if v < 8 then With(Atoi(args[6]), GENERATE_COMPACT_DEX) else Atoi(args[6]))
            && r.compilerFilter == (if |args| > 7 then Some(args[7]) else p.compilerFilter)
            && r.volumeUuid == (if |args| > 8 then ParseNull(args[8]) else p.volumeUuid)
            && r.sharedLibraries == (if |args| > 9 then ParseNull(args[9]) else p.sharedLibraries)
    decreases |args|
  {
    hide Atoi, With, ParseNull, ParseBool, AllPostV1;
    Unfold(p, v, args);
    if args != [] {
      MiddleFields(p, v, args[..|args| - 1]);
    }
  }

  lemma {:induction false} LastFields(p: Values, v: nat, args: seq<string>)
    ensures var r := AllPostV1(p, v, args);
            && r.seInfo == (if |args| > 10 then ParseNull(args[10]) else p.seInfo)
            && r.downgrade == (if |args| > 11 then ParseBool(args[11]) else p.downgrade)
            && r.targetSdkVersion == (if |args| > 12 then Atoi(args[12]) else p.targetSdkVersion)
            && r.profileName == (if |args| > 13 then ParseNull(args[13]) else p.profileName)
            && r.dexMetadataPath == (if |args| > 14 then ParseNull(args[14]) else p.dexMetadataPath)
            && r.compilationReason == (if |args| > 15 then ParseNull(args[15]) else p.compilationReason)
    decreases |args|
  {
    hide Atoi, With, ParseNull, ParseBool, AllPostV1;
    Unfold(p, v, args);
    if args != [] {
      LastFields(p, v, args[..|args| - 1]);
    }
  }

  // ---------- old versions are embedded in new ones ----------

  /** Before version 8 the version does not matter beyond the number of arguments. */
  lemma {:induction false} SameSwitch(p: Values, v: nat, w: nat, args: seq<string>)
    requires v < 8 && w < 8
    ensures AllPostV1(p, v, args) == AllPostV1(p, w, args)
  {
    if args != [] {
      SameSwitch(p, v, w, args[..|args| - 1]);
    }
  }

  /** The text of the default for the argument that version v + 1 added. */
  function DefaultText(v: nat): string {
    match v
    case 2 => "false"
    case 3 => "0"
    case 4 => "primary.prof"
    case 5 => "!"
    case _ => "ab-ota"
  }

  function Line(slot: string, version: string, args: seq<string>): seq<string> {
    ["otapreopt", slot, version, "dexopt"] + args
  }

  /** Reading a line of version 2 to 6 is reading the line of the next version that spells out the
      default of the argument it added, for every slot and every list of arguments. */
  lemma NextVersion(p: Values, slot: string, args: seq<string>, v: nat, text: string, next: string, parse: string -> Option<nat>)
    requires 2 <= v <= 6 && parse(text) == Some(v) && parse(next) == Some(v + 1)
    requires text != "dexopt" && next != "dexopt"
    ensures Read(p, Line(slot, text, args), parse) == Read(p, Line(slot, next, args + [DefaultText(v)]), parse)
  {
    hide AllPostV1, SetPostV1, ValidSlot, DefaultText, Defaults;
    var l, m := Line(slot, text, args), Line(slot, next, args + [DefaultText(v)]);
    assert l[3..] == ["dexopt"] + args && m[3..] == ["dexopt"] + (args + [DefaultText(v)]);
    var q := p.(targetSlot := slot);
    if ValidSlot(slot) && |args| == Arity(v) {
      NextVersionArgs(q, args, v);
    }
    assert l[3..][1..] == args && m[3..][1..] == args + [DefaultText(v)];
  }

  lemma NextVersionArgs(p: Values, args: seq<string>, v: nat)
    requires 2 <= v <= 6 && |args| == Arity(v)
    ensures AllPostV1(Defaults(p), v, args) == AllPostV1(Defaults(p), v + 1, args + [DefaultText(v)])
  {
    var q := Defaults(p);
    var more := args + [DefaultText(v)];
    assert more[..|args|] == args;
    SameSwitch(q, v, v + 1, args);
    LastFields(q, v, args);
    assert Atoi("0") == 0 by {
      assert "0" == Decimal(0);
      AtoiDecimal(0);
    }
    var r := AllPostV1(q, v, args);
    assert SetPostV1(r, v + 1, |args|, DefaultText(v)) == r;
  }

  /** The form without a version is accepted exactly with ten arguments, or with eleven of which the shared
      libraries are not "&"; with eleven it is version 2, whatever they are. */
  lemma UnversionedIsVersion2(p: Values, slot: string, args: seq<string>, text: string, parse: string -> Option<nat>)
    requires parse(text) == Some(2) && text != "dexopt"
    ensures |args| == 11 ==>
              Read(p, ["otapreopt", slot, "dexopt"] + args, parse) == Read(p, Line(slot, text, args), parse)
    ensures Read(p, ["otapreopt", slot, "dexopt"] + args, parse).Some? <==>
              ValidSlot(slot) && (|args| == 10 || (|args| == 11 && args[9] != "&"))
  {
    hide AllV1, AllPostV1, Defaults;
    var line := ["otapreopt", slot, "dexopt"] + args;
    assert line[2..] == ["dexopt"] + args && line[3..] == args;
    assert Line(slot, text, args)[3..] == ["dexopt"] + args;
    assert (["dexopt"] + args)[1..] == args;
    if |args| == 11 {
      MiddleFields(Defaults(p.(targetSlot := slot)), 2, args);
    }
  }

  /** The version 2 arguments that say what version 1 arguments meant. */
  function Modernized(args: seq<string>): seq<string>
    requires |args| == 10
  {
    args[4 := Decimal(DEX2OAT_FROM_SCRATCH)][6 := Decimal(Remapped(0, Atoi(args[6])))] + ["!"]
  }

  /** A version 1 line is read as the version 2 line that spells it out, if and only if its shared
      libraries are not "&", which version 1 lets through and version 2 rejects. */
  lemma Version1IsVersion2(p: Values, slot: string, args: seq<string>, text: string, parse: string -> Option<nat>)
    requires ValidSlot(slot) && |args| == 10 && parse(text) == Some(2) && text != "dexopt"
    ensures Read(p, ["otapreopt", slot, "dexopt"] + args, parse).Some?
    ensures Read(p, ["otapreopt", slot, "dexopt"] + args, parse) == Read(p, Line(slot, text, Modernized(args)), parse)
       <==> args[9] != "&"
  {
    var old', new' := ["otapreopt", slot, "dexopt"] + args, Line(slot, text, Modernized(args));
    assert old'[3..] == args && new'[3..] == ["dexopt"] + Modernized(args);
    assert new'[3..][1..] == Modernized(args);
    SameFields(Defaults(p.(targetSlot := slot)), args);
  }

  /** Such a line is read by version 1 only. */
  lemma AmpersandDiffers(p: Values)
    ensures var args := ["/a.apk", "0", "p", "arm", "0", "/o", "0", "speed", "!", "&"];
            var parse: string -> Option<nat> := text => if text == "2" then Some(2) else None;
            && Read(p, ["otapreopt", "_b", "dexopt"] + args, parse).Some?
            && Read(p, Line("_b", "2", Modernized(args)), parse) == None
  {
    var args := ["/a.apk", "0", "p", "arm", "0", "/o", "0", "speed", "!", "&"];
    var parse: string -> Option<nat> := text => if text == "2" then Some(2) else None;
    hide AllV1, AllPostV1;
    Version1IsVersion2(p, "_b", args, "2", parse);
    SameFields(Defaults(p.(targetSlot := "_b")), args);
    var line := Line("_b", "2", Modernized(args));
    assert line[3..] == ["dexopt"] + Modernized(args);
    assert line[3..][1..] == Modernized(args);
  }

  lemma SameFields(q: Values, args: seq<string>)
    requires |args| == 10 && q == Defaults(q)
    ensures AllV1(q, args) == AllPostV1(q, 2, Modernized(args))
    ensures AllV1(q, args).sharedLibraries == ParseNull(args[9])
  {
    var new' := Modernized(args);
    SamePrefix(q, args, 10);
    LastFields(q, 2, new'[..10]);
    assert args[..10] == args;
  }

  lemma {:induction false} SamePrefix(q: Values, args: seq<string>, k: nat)
    requires |args| == 10 && q == Defaults(q) && k <= 10
    ensures AllV1(q, args[..k]) == AllPostV1(q, 2, Modernized(args)[..k])
    ensures k <= 6 ==> AllV1(q, args[..k]).dexoptFlags == GENERATE_COMPACT_DEX
    ensures k == 10 ==> AllV1(q, args[..k]).sharedLibraries == ParseNull(args[9])
    decreases k
  {
    hide SetV1, SetPostV1, Remapped, Atoi, Decimal;
    if k > 0 {
      var new' := Modernized(args);
      SamePrefix(q, args, k - 1);
      assert args[..k][..k - 1] == args[..k - 1] && new'[..k][..k - 1] == new'[..k - 1];
      SameSetting(AllV1(q, args[..k - 1]), args, k - 1);
    }
  }

  /** One argument says the same in both versions. */
  lemma SameSetting(p: Values, args: seq<string>, k: nat)
    requires |args| == 10 && k < 10 && (k == 6 ==> p.dexoptFlags == GENERATE_COMPACT_DEX)
    ensures var r := SetV1(p, k, args[k]);
            && r == SetPostV1(p, 2, k, Modernized(args)[k])
            && (k != 6 ==> r.dexoptFlags == p.dexoptFlags) && (k == 9 ==> r.sharedLibraries == ParseNull(args[9]))
  {
    RemappedSmall(Atoi(args[6]));
    AtoiDecimal(Remapped(0, Atoi(args[6])));
    AtoiDecimal(DEX2OAT_FROM_SCRATCH);
    hide Remapped, Atoi, Decimal, With;
  }
}
