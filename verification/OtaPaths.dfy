/** The names of A/B compilation artifacts, computed once by otapreopt, which writes the B files, and once
    by installd's move_ab, which looks for them. */
module OtaPaths {
  import opened Options

  const PKG_PATH_MAX := 1024

  // ---------- strings ----------

  /** Position of the last `c`, or -1. */
  function LastChar(s: string, c: char): (i: int)
    ensures -1 <= i < |s|
    ensures i >= 0 ==> s[i] == c
    ensures forall k | i < k < |s| :: s[k] != c
  {
    if s == "" then -1 else if s[|s| - 1] == c then |s| - 1 else LastChar(s[..|s| - 1], c)
  }

  predicate OccursAt(s: string, i: nat, t: string) {
    i + |t| <= |s| && s[i..i + |t|] == t
  }

  /** Position of the last `t` that starts at or before `i`, or -1. */
  function LastFrom(s: string, t: string, i: int): (r: int)
    requires i >= -1
    ensures -1 <= r <= i
    ensures r >= 0 ==> OccursAt(s, r, t)
    ensures forall k: nat | r < k <= i :: !OccursAt(s, k, t)
    decreases i + 1
  {
    if i < 0 then -1 else if OccursAt(s, i, t) then i else LastFrom(s, t, i - 1)
  }

  /** std::string::rfind */
  function LastString(s: string, t: string): (r: int)
    ensures r >= 0 ==> OccursAt(s, r, t)
    ensures forall k: nat | r < k :: !OccursAt(s, k, t) || k > |s|
  {
    LastFrom(s, t, |s|)
  }

  predicate EndsWith(s: string, t: string) {
    |t| <= |s| && s[|s| - |t|..] == t
  }

  // ---------- the path functions ----------

  /** ValidateTargetSlotSuffix: [a-zA-Z0-9_]+ */
  predicate ValidSlot(slot: string) {
    slot != "" && forall c <- slot :: 'a' <= c <= 'z' || 'A' <= c <= 'Z' || '0' <= c <= '9' || c == '_'
  }

  /** The characters a slot may have, by their codes: lower and upper case letters, digits, underscore. */
  lemma SlotCharacters(slot: string)
    ensures ValidSlot(slot) <==>
            slot != "" && forall i | 0 <= i < |slot| ::
                            var code := slot[i] as int;
                            97 <= code <= 122 || 65 <= code <= 90 || 48 <= code <= 57 || code == 95
  {
    assert forall i | 0 <= i < |slot| :: slot[i] in slot;
  }

  predicate IsAbsolute(path: string) {
    path != "" && path[0] == '/' && LastString(path, "..") < 0
  }

  /** calculate_oat_file_path_default, used by installd */
  function DefaultPath(oatDir: string, apk: string, isa: string): Option<string> {
    if !IsAbsolute(oatDir) || !IsAbsolute(apk) || '/' in isa then None
    else
      var end := LastChar(apk, '.');
      if end < 0 then None
      else
        var start := LastChar(apk[..end + 1], '/');
        if start < 0 then None
        else
          var res := oatDir + "/" + isa + "/" + apk[start + 1..end] + ".odex";
          if |res| >= PKG_PATH_MAX then None else Some(res)
  }

  /** snprintf into a buffer of PKG_PATH_MAX */
  function Truncated(s: string): string {
    if |s| < PKG_PATH_MAX then s else s[..PKG_PATH_MAX - 1]
  }

  /** calculate_oat_file_path, plugged in by otapreopt */
  function OtaPath(oatDir: string, apk: string, isa: string, slot: string): Option<string> {
    var start := LastChar(apk, '/');
    if start < 0 then None
    else
      var end := LastChar(apk[start..], '.');
      if end < 0 then None
      else Some(Truncated(oatDir + "/" + isa + "/" + apk[start + 1..start + end] + ".odex." + slot))
  }

  /** replace_file_extension; the empty string is an error */
  function ReplaceExtension(path: string, ext: string): string {
    if EndsWith(path, ".dex") then path[..|path| - 4] + ext
    else
      var i := LastString(path, ".odex");
      if i >= 0 then path[..i] + ext + path[i + 5..] else ""
  }

  // ---------- lemmas ----------

  lemma LastStringIs(s: string, t: string, i: nat)
    requires t != "" && OccursAt(s, i, t) && forall k: nat | i < k <= |s| :: !OccursAt(s, k, t)
    ensures LastString(s, t) == i
  {
    assert i <= |s|;
  }

  /** Where ".odex" can occur in a B name. */
  lemma OdexInB(base: string, slot: string, k: nat)
    requires ValidSlot(slot) && k > |base|
    ensures OccursAt(base + ".odex." + slot, k, ".odex") <==> k == |base| + 5 && "odex" <= slot
  {
    var s := base + ".odex." + slot;
    if k + 5 <= |s| {
      assert s[k..k + 5][0] == s[k] && ".odex"[0] == '.';
      if k == |base| + 5 {
        assert s[k..k + 5] == "." + slot[..4];
        assert ("." + slot[..4])[1..] == slot[..4] && ".odex"[1..] == "odex";
      } else if k > |base| + 5 {
        assert s[k] == slot[k - |base| - 6];
        assert slot[k - |base| - 6] in slot;
      } else {
        assert s[k] == ".odex."[k - |base|];
      }
    } else {
      assert "odex" <= slot ==> |slot| >= 4;
    }
  }

  lemma DexEndsB(base: string, slot: string)
    requires ValidSlot(slot)
    ensures EndsWith(base + ".odex." + slot, ".dex") <==> slot == "dex"
  {
    var s := base + ".odex." + slot;
    var tail := s[|s| - 4..];
    assert tail[0] == s[|s| - 4] && ".dex"[0] == '.';
    if |slot| > 3 {
      assert s[|s| - 4] == slot[|slot| - 4];
      assert slot[|slot| - 4] in slot;
    } else if |slot| == 3 {
      assert tail == "." + slot;
      assert ("." + slot)[1..] == slot && ".dex"[1..] == "dex";
    } else {
      assert s[|s| - 4] == ".odex."[|slot| + 2];
    }
  }

  /** An A name: the extension is replaced where it was put. */
  lemma ReplaceInA(base: string, ext: string)
    ensures ReplaceExtension(base + ".odex", ext) == base + ext
  {
    var s := base + ".odex";
    assert s[|s| - 4..] == "odex" && "odex"[0] != ".dex"[0];
    assert s[|base|..|base| + 5] == ".odex";
    LastStringIs(s, ".odex", |base|);
    assert s[..|base|] == base && s[|base| + 5..] == "";
  }

  /** A B name: the same, for the slots that look neither like a dex nor like an odex extension; the
      others have something else replaced. */
  lemma ReplaceInB(base: string, slot: string, ext: string)
    requires ValidSlot(slot)
    ensures slot != "dex" && !("odex" <= slot) ==>
              ReplaceExtension(base + ".odex." + slot, ext) == base + ext + "." + slot
    ensures slot == "dex" || "odex" <= slot ==>
              base + ".odex" <= ReplaceExtension(base + ".odex." + slot, ext)
  {
    var s := base + ".odex." + slot;
    DexEndsB(base, slot);
    LastOdexInB(base, slot);
    hide LastString, EndsWith;
    if slot == "dex" {
      assert s[..|s| - 4] == base + ".odex";
    } else if "odex" <= slot {
      assert s[..|base| + 5] == base + ".odex";
    } else {
      assert s[..|base|] == base && s[|base| + 5..] == "." + slot;
    }
  }

  lemma LastOdexInB(base: string, slot: string)
    requires ValidSlot(slot)
    ensures LastString(base + ".odex." + slot, ".odex") == if "odex" <= slot then |base| + 5 else |base|
  {
    var s := base + ".odex." + slot;
    forall k: nat | k > |base| ensures OccursAt(s, k, ".odex") <==> k == |base| + 5 && "odex" <= slot {
      OdexInB(base, slot, k);
    }
    assert s[|base|..|base| + 5] == ".odex";
    LastStringIs(s, ".odex", if "odex" <= slot then |base| + 5 else |base|);
  }

  /** The part of the artifact names that both computations agree on. */
  function Base(oatDir: string, apk: string, isa: string): string
    requires LastChar(apk, '/') >= 0 && LastChar(apk, '/') < LastChar(apk, '.')
  {
    oatDir + "/" + isa + "/" + apk[LastChar(apk, '/') + 1..LastChar(apk, '.')]
  }

  /** Both computations succeed only if the last dot comes after the last slash, and then they find the
      same file name. */
  lemma SameBase(oatDir: string, apk: string, isa: string, slot: string)
    requires DefaultPath(oatDir, apk, isa).Some? && OtaPath(oatDir, apk, isa, slot).Some?
    ensures LastChar(apk, '/') >= 0 && LastChar(apk, '/') < LastChar(apk, '.')
    ensures var base := Base(oatDir, apk, isa);
            && DefaultPath(oatDir, apk, isa).value == base + ".odex"
            && OtaPath(oatDir, apk, isa, slot).value == Truncated(base + ".odex." + slot)
  {
    DotAfterSlash(apk);
    DefaultIs(oatDir, apk, isa);
    OtaIs(oatDir, apk, isa, slot);
  }

  lemma DefaultIs(oatDir: string, apk: string, isa: string)
    requires 0 <= LastChar(apk, '/') < LastChar(apk, '.') && DefaultPath(oatDir, apk, isa).Some?
    ensures DefaultPath(oatDir, apk, isa).value == Base(oatDir, apk, isa) + ".odex"
  {
    SlashBeforeDot(apk);
    hide LastChar, IsAbsolute;
  }

  lemma OtaIs(oatDir: string, apk: string, isa: string, slot: string)
    requires 0 <= LastChar(apk, '/') < LastChar(apk, '.') && OtaPath(oatDir, apk, isa, slot).Some?
    ensures OtaPath(oatDir, apk, isa, slot).value == Truncated(Base(oatDir, apk, isa) + ".odex." + slot)
  {
    DotAfterSlash(apk);
    hide LastChar, Truncated;
  }

  /** otapreopt looks for the dot after the last slash. */
  lemma DotAfterSlash(apk: string)
    ensures var start := LastChar(apk, '/');
            start >= 0 && LastChar(apk[start..], '.') >= 0 ==>
            start < LastChar(apk, '.') == start + LastChar(apk[start..], '.')
  {
    var start, dot := LastChar(apk, '/'), LastChar(apk, '.');
    if start >= 0 {
      assert forall k | start <= k < |apk| :: apk[start..][k - start] == apk[k];
    }
  }

  /** installd looks for the slash before the last dot. */
  lemma SlashBeforeDot(apk: string)
    ensures var start, dot := LastChar(apk, '/'), LastChar(apk, '.');
            0 <= start < dot ==> LastChar(apk[..dot + 1], '/') == start
  {
    var start, dot := LastChar(apk, '/'), LastChar(apk, '.');
    if 0 <= start < dot {
      assert apk[..dot + 1][start] == apk[start];
    }
  }

  /** The three B names move_ab looks for. */
  function WantedNames(a: string, slot: string): (string, string, string) {
    (a + "." + slot, ReplaceExtension(a, ".vdex") + "." + slot, ReplaceExtension(a, ".art") + "." + slot)
  }

  /** The three names otapreopt writes. */
  function WrittenNames(b: string): (string, string, string) {
    (b, ReplaceExtension(b, ".vdex"), ReplaceExtension(b, ".art"))
  }

  /** For every input on which both path functions succeed and every legal slot, the names otapreopt
      writes are the names move_ab looks for if and only if the B path fits the buffer and the slot
      is not "dex" and does not start with "odex". */
  lemma NamesAgree(oatDir: string, apk: string, isa: string, slot: string)
    requires ValidSlot(slot)
    requires DefaultPath(oatDir, apk, isa).Some? && OtaPath(oatDir, apk, isa, slot).Some?
    ensures var a, b := DefaultPath(oatDir, apk, isa).value, OtaPath(oatDir, apk, isa, slot).value;
            WrittenNames(b) == WantedNames(a, slot) <==>
            |a| + 1 + |slot| < PKG_PATH_MAX && slot != "dex" && !("odex" <= slot)
  {
    SameBase(oatDir, apk, isa, slot);
    var base := Base(oatDir, apk, isa);
    var a, b := DefaultPath(oatDir, apk, isa).value, OtaPath(oatDir, apk, isa, slot).value;
    hide DefaultPath, OtaPath, Base;
    var full := base + ".odex." + slot;
    assert full == a + "." + slot;
    assert |full| == |a| + 1 + |slot|;
    if |full| >= PKG_PATH_MAX {
      assert |b| == PKG_PATH_MAX - 1;
      assert WrittenNames(b).0 != WantedNames(a, slot).0;
    } else {
      FittingNamesAgree(base, slot);
    }
  }

  /** For the slot "dex" the vdex file is written under another name than the one looked for. */
  lemma DexSlot(base: string)
    ensures WrittenNames(base + ".odex.dex").1 == base + ".odex.vdex"
    ensures WantedNames(base + ".odex", "dex").1 == base + ".vdex.dex"
  {
    var b := base + ".odex.dex";
    assert b[|b| - 4..] == ".dex" && b[..|b| - 4] == base + ".odex";
    assert base + ".odex" + ".vdex" == base + ".odex.vdex";
    ReplaceInA(base, ".vdex");
    assert base + ".vdex" + "." + "dex" == base + ".vdex.dex";
  }

  /** An input on which both computations succeed and this happens. */
  lemma DexSlotDiffers()
    ensures ValidSlot("dex")
    ensures var a, b := DefaultPath("/o", "/a.b", "arm"), OtaPath("/o", "/a.b", "arm", "dex");
            a.Some? && b.Some? && WrittenNames(b.value) != WantedNames(a.value, "dex")
  {
    var apk := "/a.b";
    assert LastChar(apk, '.') == 2 && LastChar(apk, '/') == 0 by {
      assert apk[0] == '/' && apk[1] == 'a' && apk[2] == '.' && apk[3] == 'b';
    }
    hide LastChar, LastString, ReplaceExtension;
    NoTwoDots("/o");
    NoTwoDots(apk);
    DotAfterSlash(apk);
    SlashBeforeDot(apk);
    NamesAgree("/o", apk, "arm", "dex");
  }

  lemma TwoDotsAt(path: string, r: nat)
    requires OccursAt(path, r, "..")
    ensures r + 1 < |path| && path[r] == path[r + 1] == '.'
  {
    assert path[r] == path[r..r + 2][0] && path[r + 1] == path[r..r + 2][1];
  }

  lemma NoTwoDots(path: string)
    requires forall k | 0 <= k < |path| - 1 :: path[k] != '.' || path[k + 1] != '.'
    ensures LastString(path, "..") < 0
  {
    hide LastFrom, OccursAt;
    if LastString(path, "..") >= 0 {
      TwoDotsAt(path, LastString(path, ".."));
    }
  }

  lemma FittingNamesAgree(base: string, slot: string)
    requires ValidSlot(slot)
    ensures WrittenNames(base + ".odex." + slot) == WantedNames(base + ".odex", slot)
       <==> slot != "dex" && !("odex" <= slot)
  {
    ReplaceInA(base, ".vdex");
    ReplaceInA(base, ".art");
    ReplaceInB(base, slot, ".vdex");
    ReplaceInB(base, slot, ".art");
    hide ReplaceExtension;
    assert base + ".odex." + slot == base + ".odex" + "." + slot;
    if slot == "dex" || "odex" <= slot {
      var written, wanted := ReplaceExtension(base + ".odex." + slot, ".vdex"), base + ".vdex" + "." + slot;
      assert (base + ".odex")[|base| + 1] == 'o' && wanted[|base| + 1] == 'v';
      assert written[..|base| + 5] == base + ".odex";
    }
  }

  /** The six files move_ab deals with are six different files. */
  lemma SixNames(base: string, slot: string)
    requires ValidSlot(slot)
    ensures var a := base + ".odex";
            var v, i := ReplaceExtension(a, ".vdex"), ReplaceExtension(a, ".art");
            var (b, bv, bi) := WantedNames(a, slot);
            && a != v && a != i && v != i && i != ""
            && b !in {a, v, i} && bv !in {a, v, i} && bi !in {a, v, i}
            && b != bv && b != bi && bv != bi
  {
    ReplaceInA(base, ".vdex");
    ReplaceInA(base, ".art");
    var n := |base| + 1;
    var a, v, i := base + ".odex", base + ".vdex", base + ".art";
    assert a[n] == 'o' && v[n] == 'v' && i[n] == 'a';
    assert (a + "." + slot)[n] == 'o' && (v + "." + slot)[n] == 'v' && (i + "." + slot)[n] == 'a';
  }

  /** otapreopt succeeds exactly when the last component of the apk path has a dot in it. */
  lemma WhoSucceeds(oatDir: string, apk: string, isa: string, slot: string)
    ensures OtaPath(oatDir, apk, isa, slot).Some? <==> 0 <= LastChar(apk, '/') < LastChar(apk, '.')
  {
    DotAfterSlash(apk);
    var start, dot := LastChar(apk, '/'), LastChar(apk, '.');
    if 0 <= start < dot {
      assert apk[start..][dot - start] == apk[dot];
    }
  }

  // ---------- the paths, spelled out ----------

  lemma LastCharIs(s: string, c: char, i: nat)
    requires i < |s| && s[i] == c && forall k | i < k < |s| :: s[k] != c
    ensures LastChar(s, c) == i
  {
    hide LastChar;
  }

  lemma NoLastChar(s: string, c: char)
    requires c !in s
    ensures LastChar(s, c) == -1
  {
    hide LastChar;
    assert forall k | 0 <= k < |s| :: s[k] in s;
  }

  /** The path starts with a slash and has no two dots in a row. */
  predicate Rooted(path: string) {
    path != "" && path[0] == '/' && forall k | 0 <= k < |path| - 1 :: path[k] != '.' || path[k + 1] != '.'
  }

  lemma RootedMeans(path: string)
    ensures IsAbsolute(path) <==> Rooted(path)
  {
    if Rooted(path) {
      NoTwoDots(path);
    } else {
      hide LastString, OccursAt;
      forall k | 0 <= k < |path| - 1 && path[k] == path[k + 1] == '.' ensures LastString(path, "..") >= 0 {
        TwoDotsOccur(path, k);
      }
    }
  }

  lemma TwoDotsOccur(path: string, k: nat)
    requires k + 1 < |path| && path[k] == path[k + 1] == '.'
    ensures LastString(path, "..") >= 0
  {
    hide LastFrom;
    assert path[k..k + 2] == "..";
    assert OccursAt(path, k, "..");
  }

  /** An apk path taken apart: the directory, the file name up to its last dot, and what follows. */
  lemma Parts(dir: string, name: string, ext: string)
    requires '/' !in name && '.' !in ext
    ensures var apk := dir + "/" + name + "." + ext;
            var start, dot := |dir|, |dir| + 1 + |name|;
            && LastChar(apk, '.') == dot && LastChar(apk[..dot + 1], '/') == start && apk[start + 1..dot] == name
            && ('/' !in ext ==> LastChar(apk, '/') == start)
            && ('/' in ext ==> LastChar(apk, '/') > dot)
  {
    hide LastChar;
    var apk, dot := dir + "/" + name + "." + ext, |dir| + 1 + |name|;
    assert forall k | dot < k < |apk| :: apk[k] == ext[k - dot - 1] && apk[k] in ext;
    assert forall k | |dir| < k < dot :: apk[k] == name[k - |dir| - 1] && apk[k] in name;
    LastCharIs(apk, '.', dot);
    LastCharIs(apk[..dot + 1], '/', |dir|);
    if '/' in ext {
      var k :| 0 <= k < |ext| && ext[k] == '/';
      assert apk[dot + 1 + k] == '/';
    } else {
      LastCharIs(apk, '/', |dir|);
    }
  }

  /** installd's path for <dir>/<name>.<ext>, whatever the directory and however many dots the name has: it is
      <oat dir>/<isa>/<name>.odex, if both given paths are rooted, the instruction set is a single
      component and the result fits; and none otherwise, nor without a dot. */
  lemma DefaultSpelled(oatDir: string, dir: string, name: string, ext: string, isa: string)
    requires '/' !in name && '.' !in ext
    ensures var apk, res := dir + "/" + name + "." + ext, oatDir + "/" + isa + "/" + name + ".odex";
            DefaultPath(oatDir, apk, isa) ==
            if Rooted(oatDir) && Rooted(apk) && '/' !in isa && |res| < 1024 then Some(res) else None
  {
    var apk := dir + "/" + name + "." + ext;
    RootedMeans(oatDir);
    RootedMeans(apk);
    Parts(dir, name, ext);
    hide IsAbsolute, Rooted, LastChar;
  }

  /** otapreopt's path for it: the same with the slot, cut off where the buffer ends, and none exactly if the
      last dot is not in the file name. */
  lemma OtaSpelled(oatDir: string, dir: string, name: string, ext: string, isa: string, slot: string)
    requires '/' !in name && '.' !in ext
    ensures var apk, res := dir + "/" + name + "." + ext, oatDir + "/" + isa + "/" + name + ".odex." + slot;
            OtaPath(oatDir, apk, isa, slot) ==
            if '/' in ext then None else Some(if |res| < 1024 then res else res[..1023])
  {
    var apk := dir + "/" + name + "." + ext;
    Parts(dir, name, ext);
    DotAfterSlash(apk);
    WhoSucceeds(oatDir, apk, isa, slot);
    hide LastChar;
  }

  lemma NoDot(oatDir: string, apk: string, isa: string, slot: string)
    requires '.' !in apk
    ensures DefaultPath(oatDir, apk, isa) == None && OtaPath(oatDir, apk, isa, slot) == None
  {
    NoLastChar(apk, '.');
    WhoSucceeds(oatDir, apk, isa, slot);
    hide LastChar, IsAbsolute;
  }
}
