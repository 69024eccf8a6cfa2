/** move_ab: promoting the B artifacts of an app to A. */
module MoveAb {
  import opened Options
  import opened OtaPaths

  /** What can be at a path; a device, a pipe or a socket is special. */
  datatype File = Regular(contents: string) | Special | Directory

  /** Which stat, unlink and rename calls fail for no visible reason. */
  datatype Faults = Faults(stat: string -> bool, unlink: string -> bool, rename: string -> bool)

  /** The same files outside `paths`. */
  ghost predicate SameExcept(f: map<string, File>, g: map<string, File>, paths: set<string>) {
    forall p | p !in paths :: (p in f <==> p in g) && (p in f ==> f[p] == g[p])
  }

  /** What is at `p` cannot be unlinked. */
  predicate Stuck(f: map<string, File>, faults: Faults, p: string) {
    p in f && (f[p].Directory? || faults.unlink(p))
  }

  /** What is at `p` cannot be unlinked, or stat does not show it, so that nobody tries. */
  predicate Lingers(f: map<string, File>, faults: Faults, p: string) {
    p in f && (Stuck(f, faults, p) || faults.stat(p))
  }

  /** What is at `a` cannot be replaced: it is a directory, or stat shows it and it is special or stuck. */
  predicate Blocked(f: map<string, File>, faults: Faults, a: string) {
    a in f && (f[a].Directory? || (!faults.stat(a) && (f[a].Special? || faults.unlink(a))))
  }

  /** The artifact at `b` is a regular file that can be looked at and renamed, and `a` can be replaced. */
  predicate Moves(f: map<string, File>, faults: Faults, b: string, a: string) {
    b in f && f[b].Regular? && !faults.stat(b) && !faults.rename(b) && !Blocked(f, faults, a)
  }

  class Disk {
    var files: map<string, File>
    const faults: Faults

    constructor (files: map<string, File>, faults: Faults)
      ensures this.files == files && this.faults == faults
    {
      this.files := files;
      this.faults := faults;
    }

    predicate Stat(path: string)
      reads this
    {
      path in files && !faults.stat(path)
    }

    method Unlink(path: string) returns (ok: bool)
      modifies this
      ensures ok <==> path in old(files) && !Stuck(old(files), faults, path)
      ensures files == if ok then old(files) - {path} else old(files)
    {
      ok := path in files && !files[path].Directory? && !faults.unlink(path);
      if ok {
        files := files - {path};
      }
    }

    /** rename(2) of something that is not a directory. */
    method Rename(from: string, to: string) returns (ok: bool)
      requires from in files ==> !files[from].Directory?
      modifies this
      ensures ok <==> from in old(files) && !(to in old(files) && old(files)[to].Directory?) && !faults.rename(from)
      ensures files == if ok then (old(files) - {from})[to := old(files)[from]] else old(files)
    {
      ok := from in files && !(to in files && files[to].Directory?) && !faults.rename(from);
      if ok {
        files := (files - {from})[to := files[from]];
      }
    }

    /** unlink_and_rename: `to` is replaced, or at worst gone. */
    method UnlinkAndRename(from: string, to: string) returns (ok: bool)
      requires from in files && files[from].Regular? && from != to
      modifies this
      ensures ok <==> !Blocked(old(files), faults, to) && !faults.rename(from)
      ensures ok ==> files == (old(files) - {from})[to := old(files)[from]]
      ensures !ok ==> var gone := to in old(files) && old(files)[to].Regular? && !Lingers(old(files), faults, to);
                      files == if gone then old(files) - {to} else old(files)
    {
      if Stat(to) {
        if !files[to].Regular? {
          return false;
        }
        var gone := Unlink(to);
        if !gone {
          return false;
        }
      }
      ok := Rename(from, to);
    }

    /** move_ab_path: either B replaces A, or B is gone, unless it could not be looked at or not be unlinked;
        whatever happens, A is B, or what it was, or gone. */
    method MovePath(b: string, a: string) returns (ok: bool)
      requires a != b
      modifies this
      ensures ok <==> Moves(old(files), faults, b, a)
      ensures ok ==> files == (old(files) - {b})[a := old(files)[b]]
      ensures !ok ==>
                && (b in files <==> Lingers(old(files), faults, b))
                && (b in files ==> files[b] == old(files)[b])
                && (a in files ==> a in old(files) && files[a] == old(files)[a])
                && (a in old(files) && a !in files <==>
                      && a in old(files) && old(files)[a].Regular? && !Lingers(old(files), faults, a)
                      && b in old(files) && old(files)[b].Regular? && !faults.stat(b))
                && SameExcept(old(files), files, {a, b})
    {
      if !Stat(b) {
        return false;
      }
      if !files[b].Regular? {
        var _ := Unlink(b);
        return false;
      }
      ok := UnlinkAndRename(b, a);
      if !ok {
        var _ := Unlink(b);
      }
    }
  }

  /** The six artifacts. */
  datatype Names = Names(a: string, av: string, ai: string, b: string, bv: string, bi: string)

  predicate SixFiles(n: Names) {
    && n.a != n.av && n.a != n.ai && n.av != n.ai && n.b != n.bv && n.b != n.bi && n.bv != n.bi
    && n.b !in {n.a, n.av, n.ai} && n.bv !in {n.a, n.av, n.ai} && n.bi !in {n.a, n.av, n.ai}
  }

  /** The outcome of move_ab, whatever the artifacts are and whichever stat, unlink and rename calls fail.
      It succeeds exactly when the oat and the vdex file could be moved.  No B artifact survives,
      except one that cannot be unlinked, and one that was to be moved and stat could not look at.
      On success A's oat and vdex are the old B files and A's image is the old B image or absent,
      unless the old image could not be unlinked. */
  ghost predicate Promoted(f: map<string, File>, g: map<string, File>, faults: Faults, n: Names, success: bool) {
    var oat, vdex, image := Moves(f, faults, n.b, n.a), Moves(f, faults, n.bv, n.av), Moves(f, faults, n.bi, n.ai);
    && (success <==> oat && vdex)
    && (success ==> n.a in g && g[n.a] == f[n.b] && n.av in g && g[n.av] == f[n.bv])
    && (success ==> if image then n.ai in g && g[n.ai] == f[n.bi]
                    else (n.ai in g <==> Stuck(f, faults, n.ai)) && (n.ai in g ==> g[n.ai] == f[n.ai]))
    // a failure leaves the old image, and next to a moved oat file at most the old vdex
    && (if oat then n.a in g && g[n.a] == f[n.b] else n.a in g ==> n.a in f && g[n.a] == f[n.a])
    && (!success ==> n.av in g ==> n.av in f && g[n.av] == f[n.av])
    && (!success ==> (n.ai in g <==> n.ai in f) && (n.ai in f ==> g[n.ai] == f[n.ai]))
    // what is left of the B artifacts is what it was
    && (forall p <- {n.b, n.bv, n.bi} :: p in g ==> p in f && g[p] == f[p])
    && (n.b in g <==> !oat && Lingers(f, faults, n.b))
    && (n.bv in g <==> if oat then !vdex && Lingers(f, faults, n.bv) else Stuck(f, faults, n.bv))
    && (n.bi in g <==> if oat && vdex then !image && Lingers(f, faults, n.bi) else Stuck(f, faults, n.bi))
    && SameExcept(f, g, {n.a, n.av, n.ai, n.b, n.bv, n.bi})
  }

  /** An app image is optional, but an old one must not stay next to a new oat file. */
  method MoveImage(disk: Disk, bi: string, ai: string)
    requires bi != ai
    modifies disk
    ensures var f, g, faults := old(disk.files), disk.files, disk.faults;
            && (if Moves(f, faults, bi, ai) then ai in g && g[ai] == f[bi]
                else (ai in g <==> Stuck(f, faults, ai)) && (ai in g ==> g[ai] == f[ai]))
            && (bi in g <==> !Moves(f, faults, bi, ai) && Lingers(f, faults, bi)) && (bi in g ==> g[bi] == f[bi])
            && SameExcept(f, g, {ai, bi})
  {
    var ok := disk.MovePath(bi, ai);
    if !ok {
      var _ := disk.Unlink(ai);
    }
  }

  /** What becomes of vdex and image once the oat file was moved. */
  ghost predicate RestPromoted(f: map<string, File>, g: map<string, File>, faults: Faults, n: Names, success: bool) {
    var image := Moves(f, faults, n.bi, n.ai);
    && (success <==> Moves(f, faults, n.bv, n.av))
    && (if success then n.av in g && g[n.av] == f[n.bv] else n.av in g ==> n.av in f && g[n.av] == f[n.av])
    && (success ==> if image then n.ai in g && g[n.ai] == f[n.bi]
                    else (n.ai in g <==> Stuck(f, faults, n.ai)) && (n.ai in g ==> g[n.ai] == f[n.ai]))
    && (!success ==> (n.ai in g <==> n.ai in f) && (n.ai in f ==> g[n.ai] == f[n.ai]))
    && (n.bv in g <==> !success && Lingers(f, faults, n.bv))
    && (n.bi in g <==> if success then !image && Lingers(f, faults, n.bi) else Stuck(f, faults, n.bi))
    && (n.bv in g ==> g[n.bv] == f[n.bv]) && (n.bi in g ==> g[n.bi] == f[n.bi])
    && SameExcept(f, g, {n.av, n.ai, n.bv, n.bi})
  }

  /** The part of move_ab after the oat file was moved. */
  method MoveRest(disk: Disk, n: Names) returns (success: bool)
    requires SixFiles(n)
    modifies disk
    ensures RestPromoted(old(disk.files), disk.files, disk.faults, n, success)
  {
    success := disk.MovePath(n.bv, n.av);
    if success {
      MoveImage(disk, n.bi, n.ai);
    } else {
      var _ := disk.Unlink(n.bi);
    }
  }

  /** The part of move_ab after the names are known. */
  method Promote(disk: Disk, n: Names) returns (success: bool)
    requires SixFiles(n)
    modifies disk
    ensures Promoted(old(disk.files), disk.files, disk.faults, n, success)
  {
    hide Promoted, RestPromoted;
    ghost var f := disk.files;
    success := disk.MovePath(n.b, n.a);
    if success {
      success := MoveRest(disk, n);
      OatMoved(f, disk.files, disk.faults, n, success);
    } else {
      ghost var m := disk.files;
      var _ := disk.Unlink(n.bv);
      var _ := disk.Unlink(n.bi);
      OatNotMoved(f, m, disk.files, disk.faults, n);
    }
  }

  lemma OatMoved(f: map<string, File>, g: map<string, File>, faults: Faults, n: Names, success: bool)
    requires SixFiles(n) && Moves(f, faults, n.b, n.a)
    requires RestPromoted((f - {n.b})[n.a := f[n.b]], g, faults, n, success)
    ensures Promoted(f, g, faults, n, success)
  {
    var m := (f - {n.b})[n.a := f[n.b]];
    assert forall p <- {n.av, n.ai, n.bv, n.bi} :: (p in m <==> p in f) && (p in f ==> m[p] == f[p]);
    assert SameExcept(f, m, {n.a, n.b});
    SameExceptBoth(f, m, g, {n.a, n.b}, {n.av, n.ai, n.bv, n.bi}, {n.a, n.av, n.ai, n.b, n.bv, n.bi});
  }

  lemma OatNotMoved(f: map<string, File>, m: map<string, File>, g: map<string, File>, faults: Faults, n: Names)
    requires SixFiles(n) && !Moves(f, faults, n.b, n.a) && SameExcept(f, m, {n.a, n.b})
    requires (n.b in m <==> Lingers(f, faults, n.b)) && (n.b in m ==> m[n.b] == f[n.b])
    requires n.a in m ==> n.a in f && m[n.a] == f[n.a]
    requires g == m - (set p | p in {n.bv, n.bi} && p in m && !Stuck(m, faults, p))
    ensures Promoted(f, g, faults, n, false)
  {
    assert forall p <- {n.av, n.ai, n.bv, n.bi} :: (p in m <==> p in f) && (p in f ==> m[p] == f[p]);
    SameExceptBoth(f, m, g, {n.a, n.b}, {n.bv, n.bi}, {n.a, n.av, n.ai, n.b, n.bv, n.bi});
  }

  lemma SameExceptBoth(f: map<string, File>, m: map<string, File>, g: map<string, File>,
                       a: set<string>, b: set<string>, c: set<string>)
    requires SameExcept(f, m, a) && SameExcept(m, g, b) && a <= c && b <= c
    ensures SameExcept(f, g, c)
  {}

  /** Every artifact that exists is a regular file. */
  ghost predicate Plain(files: map<string, File>, n: Names) {
    forall p <- {n.a, n.av, n.ai, n.b, n.bv, n.bi} :: p in files ==> files[p].Regular?
  }

  /** The B artifacts whose turn to be moved comes: the vdex after the oat file, the image after the vdex. */
  ghost function Turns(f: map<string, File>, faults: Faults, n: Names): set<string> {
    if !Moves(f, faults, n.b, n.a) then {n.b}
    else if !Moves(f, faults, n.bv, n.av) then {n.b, n.bv}
    else {n.b, n.bv, n.bi}
  }

  /** Where B artifact `p` goes. */
  function Target(n: Names, p: string): string {
    if p == n.b then n.a else if p == n.bv then n.av else n.ai
  }

  /** For artifacts that are regular files: a B artifact remains if and only if it exists, is not moved, and
      unlink fails on it, or stat does when its turn to be moved comes.  On success the image is the
      old B image or absent if and only if it is moved, or unlink works on the old one. */
  lemma PlainPromotion(f: map<string, File>, g: map<string, File>, faults: Faults, n: Names, success: bool)
    requires SixFiles(n) && Promoted(f, g, faults, n, success) && Plain(f, n)
    ensures forall p <- {n.b, n.bv, n.bi} ::
              var turn := p in Turns(f, faults, n);
              p in g <==> && p in f && !(turn && Moves(f, faults, p, Target(n, p)))
                          && (faults.unlink(p) || (turn && faults.stat(p)))
    ensures success ==>
              var moved := Moves(f, faults, n.bi, n.ai);
              (n.ai in g ==> moved && g[n.ai] == f[n.bi]) <==> moved || n.ai !in f || !faults.unlink(n.ai)
  {
    assert n.ai in {n.a, n.av, n.ai, n.b, n.bv, n.bi};
    forall p <- {n.b, n.bv, n.bi}
      ensures var turn := p in Turns(f, faults, n);
              p in g <==> && p in f && !(turn && Moves(f, faults, p, Target(n, p)))
                          && (faults.unlink(p) || (turn && faults.stat(p)))
    {
      assert p in {n.a, n.av, n.ai, n.b, n.bv, n.bi};
    }
  }

  /** A B oat file that stat fails on is neither moved nor deleted. */
  method StatFails() returns (disk: Disk, success: bool)
    ensures !success && disk.files == map["b" := Regular("new")]
  {
    disk := new Disk(map["b" := Regular("new")], Faults(p => p == "b", p => false, p => false));
    var n := Names("a", "av", "ai", "b", "bv", "bi");
    success := Promote(disk, n);
    assert forall p :: p in disk.files <==> p == "b";
  }

  function NamesFor(a: string, slot: string): Names {
    var (b, bv, bi) := WantedNames(a, slot);
    Names(a, ReplaceExtension(a, ".vdex"), ReplaceExtension(a, ".art"), b, bv, bi)
  }

  /** The six names, spelled out. */
  lemma NamesSpelled(base: string, slot: string)
    ensures NamesFor(base + ".odex", slot) ==
            Names(base + ".odex", base + ".vdex", base + ".art",
                  base + ".odex." + slot, base + ".vdex." + slot, base + ".art." + slot)
  {
    ReplaceInA(base, ".vdex");
    ReplaceInA(base, ".art");
    hide ReplaceExtension;
    assert base + ".odex" + "." + slot == base + ".odex." + slot;
    assert base + ".vdex" + "." + slot == base + ".vdex." + slot;
    assert base + ".art" + "." + slot == base + ".art." + slot;
  }

  /** Whether move_ab gets past its checks and path computation. */
  predicate Proceeds(slot: string, apk: string, isa: string, oatDir: string, validPath: string -> bool) {
    ValidSlot(slot) && validPath(apk) && validPath(oatDir) && DefaultPath(oatDir, apk, isa).Some?
  }

  /** move_ab.  `slot` is the value of ro.boot.slot_suffix, empty if not set. */
  method MoveArtifacts(disk: Disk, slot: string, apk: string, isa: string, oatDir: string, validPath: string -> bool)
    returns (success: bool)
    modifies disk
    ensures success ==> Proceeds(slot, apk, isa, oatDir, validPath)
    ensures !Proceeds(slot, apk, isa, oatDir, validPath) ==> disk.files == old(disk.files)
    ensures Proceeds(slot, apk, isa, oatDir, validPath) ==>
              Promoted(old(disk.files), disk.files, disk.faults, NamesFor(DefaultPath(oatDir, apk, isa).value, slot), success)
  {
    if slot == "" || !ValidSlot(slot) || !validPath(apk) || !validPath(oatDir) {
      return false;
    }
    var path := DefaultPath(oatDir, apk, isa);
    if path.None? {
      return false;
    }
    DefaultEnds(oatDir, apk, isa);
    SixNames(path.value[..|path.value| - 5], slot);
    hide DefaultPath, ReplaceExtension, ValidSlot;
    success := Promote(disk, NamesFor(path.value, slot));
  }

  lemma DefaultEnds(oatDir: string, apk: string, isa: string)
    ensures var p := DefaultPath(oatDir, apk, isa);
            p.Some? ==> |p.value| >= 5 && p.value == p.value[..|p.value| - 5] + ".odex"
  {
    hide IsAbsolute, LastChar;
  }
}
