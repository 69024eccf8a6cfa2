/** A file hierarchy and the order in which fts(3) reports it.

    installd walks directories with FTS_PHYSICAL: every directory is reported twice, once before
    (D) and once after (DP) its contents; everything else is reported once.  The same entry
    object is handed out both times, so the scratch fields a client stores in it (`fts_pointer`,
    `fts_number`) are keyed here by the path of the entry. */
module Fts {

  datatype Kind = Directory | Regular | Symlink | DanglingSymlink | Other

  /** What lstat(2) and getxattr(2) tell about one file. */
  datatype Stat = Stat(
    uid: nat, gid: nat, ino: nat, blocks: nat, mtime: int,
    groupAttr: bool, tombstoneAttr: bool,
    cacheInode: nat, codeCacheInode: nat)

  /** The children of anything but a directory are never looked at. */
  datatype Node = Node(name: string, kind: Kind, st: Stat, kids: seq<Node>)

  /** The walk's starting path, then one name per level. */
  type Path = seq<string>

  datatype Info = D | DP | F | SL | SLNONE | DEFAULT

  /** One entry as handed out by fts_read; `parent` stands for `fts_parent`. */
  datatype Entry = Entry(info: Info, level: nat, path: Path, node: Node, parent: Node)

  function LeafInfo(k: Kind): (i: Info)
    requires k != Directory
    ensures i != D && i != DP
  {
    match k
    case Regular => F
    case Symlink => SL
    case DanglingSymlink => SLNONE
    case Other => DEFAULT
  }

  function DirName(p: Path): Path
    requires p != []
  {
    p[..|p| - 1]
  }

  /** `fts_path`: the components joined by slashes. */
  function Render(p: Path): string
    requires p != []
  {
    if |p| == 1 then p[0] else Render(DirName(p)) + "/" + p[|p| - 1]
  }

  /** The same scratch values at every path of at most `k` names: what is stored in the entries of a
      directory's contents does not touch the entries above. */
  ghost predicate SameUpTo<T>(a: map<Path, T>, b: map<Path, T>, k: nat) {
    forall x: Path | |x| <= k :: (x in a <==> x in b) && (x in a ==> a[x] == b[x])
  }

  /** The entries fts_read hands out for the subtree `n` found in directory `dir`. */
  function Walk(n: Node, parent: Node, dir: Path, level: nat): (ev: seq<Entry>)
    ensures ev != []
    decreases n, 1
  {
    var path := dir + [n.name];
    if n.kind == Directory then
      [Entry(D, level, path, n, parent)] + WalkAll(n.kids, n, path, level + 1)
      + [Entry(DP, level, path, n, parent)]
    else
      [Entry(LeafInfo(n.kind), level, path, n, parent)]
  }

  function WalkAll(kids: seq<Node>, parent: Node, dir: Path, level: nat): seq<Entry>
    decreases kids, 0
  {
    if kids == [] then []
    else Walk(kids[0], parent, dir, level) + WalkAll(kids[1..], parent, dir, level)
  }

  /** Every node of the subtree, in walk order. */
  function Nodes(n: Node): (ns: seq<Node>)
    ensures ns != [] && ns[0] == n
    decreases n, 1
  {
    [n] + if n.kind == Directory then NodesAll(n.kids) else []
  }

  function NodesAll(kids: seq<Node>): seq<Node>
    decreases kids, 0
  {
    if kids == [] then [] else Nodes(kids[0]) + NodesAll(kids[1..])
  }

  /** Names are unique within every directory, as on any file system. */
  ghost predicate WellFormed(n: Node)
    decreases n, 1
  {
    n.kind == Directory ==> WellFormedAll(n.kids)
  }

  ghost predicate WellFormedAll(kids: seq<Node>)
    decreases kids, 0
  {
    kids != [] ==>
      && WellFormed(kids[0]) && WellFormedAll(kids[1..])
      && forall k <- kids[1..] :: k.name != kids[0].name
  }

  // ---------- sequences ----------

  lemma Assoc<T>(a: seq<T>, b: seq<T>, c: seq<T>)
    ensures (a + b) + c == a + (b + c)
  {}

  /** The entries of a directory, followed by others. */
  lemma Bracket(n: Node, parent: Node, dir: Path, level: nat, rest: seq<Entry>)
    requires n.kind == Directory
    ensures var path := dir + [n.name];
            Walk(n, parent, dir, level) + rest
            == [Entry(D, level, path, n, parent)]
               + (WalkAll(n.kids, n, path, level + 1) + ([Entry(DP, level, path, n, parent)] + rest))
  {}
}
