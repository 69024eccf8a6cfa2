/** What each word of an otapreopt command line ends up as, field by field and for every version. */
module OtaFields {
  import opened Options
  import opened OtaPaths
  import opened OtaParameters

  // ---------- what a line says ----------

  /** The field is what the word says, where "!" stands for nothing. */
  predicate Says(field: Text, word: string) {
    if word == "!" then field == None else field == Some(word)
  }

  /** The value of the bit of `flags` that is worth `mask`. */
  function Bit(flags: int, mask: nat): int
    requires mask > 0
  {
    flags / mask % 2
  }

  /** The words every version has. */
  predicate SaysCommon(r: Values, slot: string, args: seq<string>)
    requires |args| >= 10
  {
    && r.targetSlot == slot && r.apkPath == Some(args[0]) && r.uid == Atoi(args[1]) && r.pkgName == Some(args[2])
    && r.instructionSet == Some(args[3]) && r.oatDir == Some(args[5]) && r.compilerFilter == Some(args[7])
    && Says(r.volumeUuid, args[8]) && Says(r.sharedLibraries, args[9])
  }

  /** The words that were added over time, or what stands for them where they are missing. */
  predicate SaysAdded(r: Values, args: seq<string>) {
    && (if |args| > 10 then Says(r.seInfo, args[10]) else r.seInfo == None)
    && (if |args| > 11 then r.downgrade == (args[11] == "true") else !r.downgrade)
    && (if |args| > 12 then r.targetSdkVersion == Atoi(args[12]) else r.targetSdkVersion == 0)
    && (if |args| > 13 then Says(r.profileName, args[13]) else r.profileName == Some("primary.prof"))
    && (if |args| > 14 then Says(r.dexMetadataPath, args[14]) else r.dexMetadataPath == None)
    && (if |args| > 15 then Says(r.compilationReason, args[15]) else r.compilationReason == Some("ab-ota"))
  }

  /** The flags of versions 2 and later: those given, with bit 2048 set whatever they say before version 8. */
  predicate SaysFlags(r: Values, version: nat, arg: string) {
    var given := Atoi(arg);
    if version >= 8 then r.dexoptFlags == given
    else Bit(r.dexoptFlags, 2048) == 1 && r.dexoptFlags == given + 2048 * (1 - Bit(given, 2048))
  }

  /** The flags of version 1 under their present numbers, and bit 2048. */
  predicate SaysOldFlags(r: Values, arg: string) {
    var given := Atoi(arg);
    r.dexoptFlags == 2048 + 2 * Bit(given, 2) + 4 * Bit(given, 8) + 8 * Bit(given, 16) + 16 * Bit(given, 32)
  }

  predicate RightCount(version: nat, count: nat) {
    match version
    case 2 => count == 11
    case 3 => count == 12
    case 4 => count == 13
    case 5 => count == 14
    case 6 => count == 15
    case 7 => count == 16
    case 8 => count == 16
    case 9 => count == 16
    case 10 => count == 16
    case _ => false
  }

  /** A line with a version is accepted exactly if the slot is legal, the version known, the number of words
      right, and, before version 10, the shared libraries are not "&".  Every field is what its word says
      then, and also if it is only the shared libraries that are wrong; otherwise only the slot is stored. */
  lemma VersionedLine(p: Values, slot: string, text: string, version: nat, args: seq<string>, parse: string -> Option<nat>)
    requires parse(text) == Some(version) && text != "dexopt"
    ensures var r := Read(p, Line(slot, text, args), parse);
            && (r.Some? <==> ValidSlot(slot) && RightCount(version, |args|) && (version < 10 ==> args[9] != "&"))
            && (r.Some? ==> r.value == Fields(p, Line(slot, text, args), parse))
    ensures var r := Fields(p, Line(slot, text, args), parse);
            if ValidSlot(slot) && RightCount(version, |args|) then
              && SaysCommon(r, slot, args) && SaysAdded(r, args)
              && SaysFlags(r, version, args[6]) && r.dexoptNeeded == Atoi(args[4])
            else r == p.(targetSlot := slot)
  {
    hide ValidSlot, AllPostV1, Atoi;
    var line := Line(slot, text, args);
    assert line[3..] == ["dexopt"] + args;
    assert (["dexopt"] + args)[1..] == args;
    var q := Defaults(p.(targetSlot := slot));
    FirstFields(q, version, args);
    MiddleFields(q, version, args);
    LastFields(q, version, args);
    if |args| > 6 {
      CompactDex(Atoi(args[6]));
    }
  }

  lemma CompactDex(flags: int)
    ensures var r := With(flags, GENERATE_COMPACT_DEX); Bit(r, 2048) == 1 && r == flags + 2048 * (1 - Bit(flags, 2048))
  {}

  lemma OldFlags(input: int)
    ensures With(Remapped(0, input), GENERATE_COMPACT_DEX)
         == 2048 + 2 * Bit(input, 2) + 4 * Bit(input, 8) + 8 * Bit(input, 16) + 16 * Bit(input, 32)
  {
    RemappedSmall(input);
  }

  /** A line without a version and with ten words after "dexopt" is version 1. */
  lemma OldLine(p: Values, slot: string, args: seq<string>, parse: string -> Option<nat>)
    requires |args| == 10
    ensures var r := Read(p, ["otapreopt", slot, "dexopt"] + args, parse);
            && (r.Some? <==> ValidSlot(slot))
            && (r.Some? ==> && SaysCommon(r.value, slot, args) && SaysAdded(r.value, args)
                            && SaysOldFlags(r.value, args[6]) && r.value.dexoptNeeded == 1
                            && r.value == Fields(p, ["otapreopt", slot, "dexopt"] + args, parse))
  {
    hide ValidSlot, AllPostV1, AllV1, Atoi, Remapped, Decimal, With;
    var line, new' := ["otapreopt", slot, "dexopt"] + args, Modernized(args);
    assert line[3..] == args;
    var q := Defaults(p.(targetSlot := slot));
    SameFields(q, args);
    FirstFields(q, 2, new');
    MiddleFields(q, 2, new');
    LastFields(q, 2, new');
    OldFlags(Atoi(args[6]));
    RemappedSmall(Atoi(args[6]));
    AtoiDecimal(Remapped(0, Atoi(args[6])));
    AtoiDecimal(1);
  }

  /** atoi of a negative number. */
  lemma AtoiNegative(n: nat)
    ensures Atoi("-" + Decimal(n)) == 0 - n
  {
    DecimalDigits(n);
    var s := "-" + Decimal(n);
    assert s[1..] == Decimal(n);
  }
}
