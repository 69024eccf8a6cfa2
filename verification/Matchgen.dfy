/** matchgen.py: from a table of file extensions to nested C switch statements. */
module Matchgen {
  import opened Options

  // ---------- characters ----------

  const NUL: char := '\0'

  function Lower(c: char): char {
    if 'A' <= c <= 'Z' then c + 32 as char else c
  }

  function Upper(c: char): char {
    if 'a' <= c <= 'z' then c - 32 as char else c
  }

  function LowerAll(s: string): (r: string)
    ensures |r| == |s| && forall i | 0 <= i < |s| :: r[i] == Lower(s[i])
  {
    if s == [] then [] else [Lower(s[0])] + LowerAll(s[1..])
  }

  // ---------- the trie ----------

  /** A nested dictionary, or the type name stored under the NUL key. */
  datatype Trie = Dict(kids: map<char, Trie>) | Type(name: string)

  /** The dictionaries are nested six deep; the innermost one yields strings. */
  const DEPTH := 5

  /** Descend along `w`, creating dictionaries on the way, and file `ty` under NUL.  Descending into
      or storing into a string raises an exception. */
  function Insert(t: Trie, w: string, ty: string, depth: nat): Option<Trie>
    decreases w
  {
    if t.Type? then None
    else if w == [] then Some(Dict(t.kids[NUL := Type(ty)]))
    else
      var child := if w[0] in t.kids then t.kids[w[0]] else if depth < DEPTH then Dict(map[]) else Type("");
      match Insert(child, w[1..], ty, depth + 1)
      case None => None
      case Some(c) => Some(Dict(t.kids[w[0] := c]))
  }

  function Lookup(t: Trie, w: string): Option<string> {
    if t.Type? then None
    else if w == [] then
      if NUL in t.kids && t.kids[NUL].Type? then Some(t.kids[NUL].name) else None
    else if w[0] in t.kids then Lookup(t.kids[w[0]], w[1..]) else None
  }

  /** Keys are lower case; types sit under NUL and nowhere else. */
  ghost predicate Ok(t: Trie, depth: nat) {
    && t.Dict?
    && (forall k <- t.kids ::
          if k == NUL then t.kids[k].Type?
          else depth < DEPTH && Lower(k) == k && Ok(t.kids[k], depth + 1))
  }

  ghost predicate Word(w: string) {
    NUL !in w && LowerAll(w) == w
  }

  lemma {:induction false} LookupInEmpty(w: string)
    ensures Lookup(Dict(map[]), w) == None
  {}

  /** Inserting files the word and changes no other entry; it fails exactly on words that are too long. */
  lemma {:induction false} InsertSpec(t: Trie, w: string, ty: string, depth: nat)
    requires Ok(t, depth) && Word(w) && depth <= DEPTH
    ensures Insert(t, w, ty, depth).Some? <==> depth + |w| <= DEPTH
    ensures Insert(t, w, ty, depth).Some? ==>
              var r := Insert(t, w, ty, depth).value;
              && Ok(r, depth)
              && forall x | NUL !in x :: Lookup(r, x) == if x == w then Some(ty) else Lookup(t, x)
    decreases w
  {
    if w != [] {
      var c := w[0];
      assert Lower(c) == c;
      if c in t.kids || depth < DEPTH {
        var child := if c in t.kids then t.kids[c] else Dict(map[]);
        assert Word(w[1..]) by {
          forall i | 0 <= i < |w| - 1 ensures Lower(w[1..][i]) == w[1..][i] {
            assert w[1..][i] == w[i + 1];
          }
          assert LowerAll(w[1..]) == w[1..];
        }
        InsertSpec(child, w[1..], ty, depth + 1);
        if Insert(t, w, ty, depth).Some? {
          var r, s := Insert(t, w, ty, depth).value, Insert(child, w[1..], ty, depth + 1).value;
          forall x | NUL !in x ensures Lookup(r, x) == if x == w then Some(ty) else Lookup(t, x) {
            if x != [] && x[0] == c {
              assert x == w <==> x[1..] == w[1..] by {
                assert x == [c] + x[1..] && w == [c] + w[1..];
              }
              LookupInEmpty(x[1..]);
            }
          }
        }
      } else {
        assert Insert(t, w, ty, depth) == None;
      }
    }
  }

  // ---------- building it ----------

  datatype Row = Row(ty: string, words: seq<string>)

  predicate Lists(row: Row, w: string) {
    exists v <- row.words :: LowerAll(v) == w
  }

  /** The type of the last row that lists word `w`. */
  function Filed(table: seq<Row>, w: string): Option<string> {
    if table == [] then None
    else if Lists(table[|table| - 1], w) then Some(table[|table| - 1].ty)
    else Filed(table[..|table| - 1], w)
  }

  ghost predicate CStrings(table: seq<Row>) {
    forall row <- table, v <- row.words :: NUL !in v
  }

  ghost predicate ShortWords(table: seq<Row>) {
    forall row <- table, v <- row.words :: |v| <= DEPTH
  }

  /** The trie holds exactly what was filed. */
  ghost predicate Holds(t: Trie, table: seq<Row>) {
    Ok(t, 0) && forall w | NUL !in w :: Lookup(t, w) == Filed(table, w)
  }

  lemma LowerWord(v: string)
    requires NUL !in v
    ensures Word(LowerAll(v))
  {
    assert LowerAll(LowerAll(v)) == LowerAll(v);
  }

  /** One more word of the last row. */
  lemma FiledGrows(table: seq<Row>, ty: string, words: seq<string>, v: string, w: string)
    ensures Filed(table + [Row(ty, words + [v])], w)
         == if w == LowerAll(v) then Some(ty) else Filed(table + [Row(ty, words)], w)
  {
    var a, b := table + [Row(ty, words + [v])], table + [Row(ty, words)];
    assert a[..|table|] == table && b[..|table|] == table;
    assert Lists(Row(ty, words + [v]), w) <==> w == LowerAll(v) || Lists(Row(ty, words), w) by {
      if w == LowerAll(v) {
        assert (words + [v])[|words|] == v;
      }
      forall u <- words ensures u in words + [v] {}
    }
  }

  lemma FiledNothing(table: seq<Row>, ty: string, w: string)
    ensures Filed(table + [Row(ty, [])], w) == Filed(table, w)
  {
    assert (table + [Row(ty, [])])[..|table|] == table;
  }

  /** The two loops that fill the trie; the script dies exactly when some word is longer than the
      nested dictionaries are deep. */
  method BuildTrie(table: seq<Row>) returns (trie: Option<Trie>)
    requires CStrings(table)
    ensures trie.Some? <==> ShortWords(table)
    ensures trie.Some? ==> Holds(trie.value, table)
  {
    var t := Dict(map[]);
    forall w ensures Lookup(t, w) == Filed([], w) {
      LookupInEmpty(w);
    }
    var i := 0;
    while i < |table|
      invariant 0 <= i <= |table| && Holds(t, table[..i]) && ShortWords(table[..i])
    {
      var ok;
      t, ok := AddRow(t, table[..i], table[i]);
      assert table[..i + 1] == table[..i] + [table[i]];
      if !ok {
        return None;
      }
      i := i + 1;
    }
    assert table[..i] == table;
    return Some(t);
  }

  method AddRow(t: Trie, ghost table: seq<Row>, row: Row) returns (r: Trie, ok: bool)
    requires Holds(t, table) && forall v <- row.words :: NUL !in v
    ensures ok <==> forall v <- row.words :: |v| <= DEPTH
    ensures ok ==> Holds(r, table + [row])
  {
    hide Insert, Lookup, Filed, Lists, Ok;
    r := t;
    var j := 0;
    forall w ensures Filed(table + [Row(row.ty, [])], w) == Filed(table, w) {
      FiledNothing(table, row.ty, w);
    }
    while j < |row.words|
      invariant 0 <= j <= |row.words| && Holds(r, table + [Row(row.ty, row.words[..j])])
      invariant forall v <- row.words[..j] :: |v| <= DEPTH
    {
      var v := row.words[j];
      LowerWord(v);
      InsertSpec(r, LowerAll(v), row.ty, 0);
      var next := Insert(r, LowerAll(v), row.ty, 0);
      if next.None? {
        return r, false;
      }
      forall w ensures Filed(table + [Row(row.ty, row.words[..j] + [v])], w)
                    == if w == LowerAll(v) then Some(row.ty) else Filed(table + [Row(row.ty, row.words[..j])], w)
      {
        FiledGrows(table, row.ty, row.words[..j], v, w);
      }
      assert row.words[..j + 1] == row.words[..j] + [v];
      r := next.value;
      j := j + 1;
    }
    assert row.words[..j] == row.words;
    ok := true;
  }

  // ---------- the emitted program ----------

  /** The statements of a C function body: labels stand in the list, so control falls through them. */
  datatype Stmt = Case(value: char) | Return(ty: string) | Switch(index: nat, body: seq<Stmt>) | Break

  function Smallest(s: set<char>): (c: char)
    requires s != {}
    ensures c in s && forall x <- s :: c <= x
  {
    SmallestExists(s);
    var c :| c in s && forall x <- s :: c <= x;
    c
  }

  lemma {:induction false} SmallestExists(s: set<char>)
    requires s != {}
    ensures exists c :: c in s && forall x <- s :: c <= x
    decreases |s|
  {
    var c :| c in s;
    var rest := s - {c};
    assert forall x <- s :: x == c || x in rest;
    if rest != {} {
      SmallestExists(rest);
      var d :| d in rest && forall x <- rest :: d <= x;
      var m := if d <= c then d else c;
      assert m in s && forall x <- s :: m <= x;
    } else {
      assert c in s && forall x <- s :: c <= x;
    }
  }

  /** sorted(target.keys()) */
  function SortedKeys(s: set<char>): (r: seq<char>)
    ensures forall c :: c in s <==> c in r
    ensures forall i, j | 0 <= i < j < |r| :: r[i] < r[j]
    decreases |s|
  {
    if s == {} then [] else
      var c := Smallest(s);
      var rest := SortedKeys(s - {c});
      SmallestFirst(s, c, rest);
      [c] + rest
  }

  lemma SmallestFirst(s: set<char>, c: char, rest: seq<char>)
    requires c in s && (forall x <- s :: c <= x)
    requires forall x :: x in s - {c} <==> x in rest
    requires forall i, j | 0 <= i < j < |rest| :: rest[i] < rest[j]
    ensures var r := [c] + rest;
            && (forall x :: x in s <==> x in r)
            && (forall i, j | 0 <= i < j < |r| :: r[i] < r[j])
  {
    var r := [c] + rest;
    forall x ensures x in s <==> x in r {
      assert x in r <==> x == c || x in rest;
    }
    forall i, j | 0 <= i < j < |r| ensures r[i] < r[j] {
      assert r[j] == rest[j - 1] && rest[j - 1] in rest;
    }
  }

  /** dump(target, index) */
  function Dump(t: Trie, index: nat): seq<Stmt>
    decreases t, 1, 0
  {
    if t.Type? then []
    else [Switch(index, Cases(t, SortedKeys(t.kids.Keys), index))] + if index > 0 then [Break] else []
  }

  function Cases(t: Trie, keys: seq<char>, index: nat): seq<Stmt>
    requires t.Dict? && forall k <- keys :: k in t.kids
    decreases t, 0, |keys|
  {
    if keys == [] then [] else CaseOf(keys[0], t.kids[keys[0]], index) + Cases(t, keys[1..], index)
  }

  function CaseOf(k: char, child: Trie, index: nat): seq<Stmt>
    decreases child, 2, 0
  {
    if k == NUL then [Case(NUL), Return(if child.Type? then child.name else "")]
    else (if k != Upper(k) then [Case(k), Case(Upper(k))] else [Case(k)]) + Dump(child, index + 1)
  }

  // ---------- C semantics ----------

  /** How a list of statements ends: by running off its end, at a break, at a return, or by
      reading past the NUL that terminates `ext`. */
  datatype Outcome = Fell | Broke | Returned(ty: string) | Fault

  /** ext[i] of a NUL-terminated string */
  function CharAt(ext: string, i: nat): char
    requires i <= |ext|
  {
    if i < |ext| then ext[i] else NUL
  }

  /** Where control goes for value `c`: the position of the label, or the length if there is none. */
  function LabelIndex(body: seq<Stmt>, c: char): (i: nat)
    ensures i <= |body|
  {
    if body == [] || body[0] == Case(c) then 0 else 1 + LabelIndex(body[1..], c)
  }

  function Exec(stmts: seq<Stmt>, ext: string): Outcome
    decreases stmts
  {
    if stmts == [] then Fell
    else match stmts[0]
      case Case(_) => Exec(stmts[1..], ext)
      case Return(ty) => Returned(ty)
      case Break => Broke
      case Switch(i, body) =>
        if i > |ext| then Fault
        else
          var j := LabelIndex(body, CharAt(ext, i));
          var inner := Exec(body[j..], ext);
          if inner.Returned? || inner.Fault? then inner else Exec(stmts[1..], ext)
  }

  datatype Answer = Zero | Media(ty: string) | Undefined

  /** The generated function: the emitted statements, then `return 0`. */
  function MatchExtension(program: seq<Stmt>, ext: string): Answer {
    match Exec(program, ext)
    case Fell => Zero
    case Returned(ty) => Media(ty)
    case _ => Undefined
  }

  // ---------- correctness ----------

  lemma {:induction false} LabelAppend(a: seq<Stmt>, b: seq<Stmt>, c: char)
    ensures var i := LabelIndex(a, c);
            LabelIndex(a + b, c) == if i < |a| then i else |a| + LabelIndex(b, c)
  {
    if a == [] {
      assert a + b == b;
    } else {
      assert (a + b)[1..] == a[1..] + b;
      LabelAppend(a[1..], b, c);
    }
  }

  /** A switch below the outermost one is followed by a break, so control never falls into the next case. */
  lemma DumpEnds(t: Trie, index: nat, rest: seq<Stmt>, ext: string)
    requires t.Dict? && index > 0
    ensures Exec(Dump(t, index) + rest, ext) == Exec(Dump(t, index), ext)
  {
    var d := Dump(t, index);
    assert (d + rest)[1..] == [Break] + rest;
    assert d[1..] == [Break];
  }

  /** A key's labels match exactly the characters that become the key in lower case. */
  lemma LabelsOfKey(k: char, c: char)
    requires Lower(k) == k
    ensures c == k || c == Upper(k) <==> Lower(c) == k
  {}

  lemma DumpHasNoLabel(t: Trie, index: nat, c: char)
    requires t.Dict? && index > 0
    ensures LabelIndex(Dump(t, index), c) == 2 == |Dump(t, index)|
  {
    var d := Dump(t, index);
    assert d[1..] == [Break] && [Break][1..] == [];
  }

  /** Entering the cases of one key at the label for `c`. */
  lemma EnterCase(k: char, child: Trie, index: nat, rest: seq<Stmt>, c: char, ext: string)
    requires if k == NUL then child.Type? else child.Dict? && Lower(k) == k
    ensures var g := CaseOf(k, child, index);
            var j := LabelIndex(g, c);
            if Lower(c) == k then
              && j < |g|
              && Exec((g + rest)[j..], ext)
                 == if k == NUL then Returned(child.name) else Exec(Dump(child, index + 1), ext)
            else j == |g|
  {
    var g := CaseOf(k, child, index);
    if k == NUL {
      assert g[1..] == [Return(child.name)] && g[1..][1..] == [];
      assert (g + rest)[1..] == [Return(child.name)] + rest;
    } else {
      var d := Dump(child, index + 1);
      LabelsOfKey(k, c);
      DumpHasNoLabel(child, index + 1, c);
      DumpEnds(child, index + 1, rest, ext);
      if k != Upper(k) {
        assert g[1..] == [Case(Upper(k))] + d && g[1..][1..] == d;
        assert (g + rest)[1..] == [Case(Upper(k))] + (d + rest);
        assert (g + rest)[1..][1..] == d + rest;
      } else {
        assert g[1..] == d;
        assert (g + rest)[1..] == d + rest;
      }
    }
  }

  /** Control reaches the case of the character's lower-case form if that is a key, and no case otherwise. */
  lemma {:induction false} Dispatch(t: Trie, keys: seq<char>, index: nat, c: char, ext: string, depth: nat)
    requires Ok(t, depth) && forall k <- keys :: k in t.kids
    ensures var body, k := Cases(t, keys, index), Lower(c);
            var j := LabelIndex(body, c);
            if k in keys then
              && j < |body|
              && Exec(body[j..], ext)
                 == if k == NUL then Returned(t.kids[k].name) else Exec(Dump(t.kids[k], index + 1), ext)
            else j == |body|
    decreases |keys|, 1
  {
    if keys != [] {
      DispatchMore(t, keys, index, c, ext, depth);
    }
  }

  lemma {:induction false} DispatchMore(t: Trie, keys: seq<char>, index: nat, c: char, ext: string, depth: nat)
    requires keys != [] && Ok(t, depth) && forall k <- keys :: k in t.kids
    ensures var body, k := Cases(t, keys, index), Lower(c);
            var j := LabelIndex(body, c);
            if k in keys then
              && j < |body|
              && Exec(body[j..], ext)
                 == if k == NUL then Returned(t.kids[k].name) else Exec(Dump(t.kids[k], index + 1), ext)
            else j == |body|
    decreases |keys|, 0
  {
    hide Exec, CaseOf, Dump, LabelIndex, Lower;
    var g, rest := CaseOf(keys[0], t.kids[keys[0]], index), Cases(t, keys[1..], index);
    EnterCase(keys[0], t.kids[keys[0]], index, rest, c, ext);
    LabelAppend(g, rest, c);
    Dispatch(t, keys[1..], index, c, ext, depth);
    if Lower(c) != keys[0] && Lower(c) in keys {
      var j := LabelIndex(rest, c);
      assert (g + rest)[|g| + j..] == rest[j..];
    }
  }

  lemma DumpRuns(t: Trie, index: nat, ext: string)
    requires t.Dict? && index <= |ext|
    ensures var body := Cases(t, SortedKeys(t.kids.Keys), index);
            var inner := Exec(body[LabelIndex(body, CharAt(ext, index))..], ext);
            && Exec(Dump(t, index), ext)
               == (if inner.Returned? || inner.Fault? then inner else if index > 0 then Broke else Fell)
            && (LabelIndex(body, CharAt(ext, index)) == |body| ==> inner == Fell)
  {
    var d := Dump(t, index);
    assert d[1..] == if index > 0 then [Break] else [];
    assert index > 0 ==> [Break][1..] == [];
  }

  /** The program emitted for a trie looks the rest of the extension up in it, ignoring case. */
  lemma {:induction false} DumpLooksUp(t: Trie, index: nat, ext: string, depth: nat)
    requires Ok(t, depth) && NUL !in ext && index <= |ext|
    ensures Exec(Dump(t, index), ext) ==
            match Lookup(t, LowerAll(ext[index..]))
            case Some(ty) => Returned(ty)
            case None => if index > 0 then Broke else Fell
    decreases t
  {
    hide Exec, Cases, Dump, LabelIndex, SortedKeys, Lookup, LowerAll;
    DumpChooses(t, index, ext, depth);
    LookupChooses(t, index, ext, depth);
    if index < |ext| && Lower(ext[index]) in t.kids {
      DumpLooksUp(t.kids[Lower(ext[index])], index + 1, ext, depth + 1);
    }
  }

  /** What the switch for a trie does at one character. */
  lemma DumpChooses(t: Trie, index: nat, ext: string, depth: nat)
    requires Ok(t, depth) && NUL !in ext && index <= |ext|
    ensures var k, run, none := Lower(CharAt(ext, index)), Exec(Dump(t, index), ext), if index > 0 then Broke else Fell;
            if k !in t.kids then run == none
            else if k == NUL then run == Returned(t.kids[k].name)
            else var inner := Exec(Dump(t.kids[k], index + 1), ext);
                 run == if inner.Returned? || inner.Fault? then inner else none
  {
    var keys := SortedKeys(t.kids.Keys);
    Dispatch(t, keys, index, CharAt(ext, index), ext, depth);
    DumpRuns(t, index, ext);
    hide Exec, Cases, Dump, LabelIndex, SortedKeys;
  }

  /** What looking the rest of the string up does at one character. */
  lemma {:induction false} LookupChooses(t: Trie, index: nat, ext: string, depth: nat)
    requires Ok(t, depth) && NUL !in ext && index <= |ext|
    ensures var k := Lower(CharAt(ext, index));
            && (k == NUL <==> index == |ext|)
            && Lookup(t, LowerAll(ext[index..])) ==
               if k !in t.kids then None
               else if k == NUL then Some(t.kids[k].name)
               else Lookup(t.kids[k], LowerAll(ext[index + 1..]))
  {
    var rest := ext[index..];
    if index < |ext| {
      assert rest[1..] == ext[index + 1..];
      assert LowerAll(rest) == [Lower(rest[0])] + LowerAll(rest[1..]);
    } else {
      assert LowerAll(rest) == [];
    }
  }

  ghost predicate NoWordTwice(table: seq<Row>) {
    forall r, q, w | r in table && q in table && Lists(r, w) && Lists(q, w) :: r.ty == q.ty
  }

  /** The answer is a type exactly when the extension, ignoring case, is one of the type's words, and
      zero exactly when it is no type's word; the string is not read past its end. */
  ghost predicate Answers(program: seq<Stmt>, table: seq<Row>, ext: string) {
    var answer, w := MatchExtension(program, ext), LowerAll(ext);
    && answer != Undefined
    && (forall ty :: answer == Media(ty) <==> exists r <- table :: r.ty == ty && Lists(r, w))
    && (answer == Zero <==> forall r <- table :: !Lists(r, w))
  }

  /** What the answer for `ext` would be if the table were searched from its end. */
  function LastListed(table: seq<Row>, ext: string): Answer {
    var ty := Filed(table, LowerAll(ext));
    if ty.Some? then Media(ty.value) else Zero
  }

  lemma DumpAnswers(t: Trie, table: seq<Row>, ext: string)
    requires Holds(t, table) && NUL !in ext
    ensures MatchExtension(Dump(t, 0), ext) == LastListed(table, ext)
    ensures NoWordTwice(table) ==> Answers(Dump(t, 0), table, ext)
  {
    hide Exec, Dump, Lookup, Filed, Ok, Lists;
    DumpLooksUp(t, 0, ext, 0);
    assert ext[0..] == ext;
    FiledMeans(table, LowerAll(ext));
    assert Lookup(t, LowerAll(ext)) == Filed(table, LowerAll(ext));
  }

  /** Correct answers for every string take a table that lists no word under two types. */
  lemma AnswersNeedOneType(program: seq<Stmt>, table: seq<Row>)
    requires CStrings(table) && forall ext | NUL !in ext :: Answers(program, table, ext)
    ensures NoWordTwice(table)
  {
    hide Answers, Lists, CStrings;
    forall r, q, w | r in table && q in table && Lists(r, w) && Lists(q, w) ensures r.ty == q.ty {
      ListedWord(table, r, w);
      assert Answers(program, table, w);
      OneAnswer(program, table, w, r, q);
    }
  }

  lemma OneAnswer(program: seq<Stmt>, table: seq<Row>, w: string, r: Row, q: Row)
    requires Answers(program, table, w) && r in table && q in table && LowerAll(w) == w && Lists(r, w) && Lists(q, w)
    ensures r.ty == q.ty
  {
    hide Lists, MatchExtension;
    assert MatchExtension(program, w) == Media(r.ty);
    assert MatchExtension(program, w) == Media(q.ty);
  }

  lemma ListedWord(table: seq<Row>, r: Row, w: string)
    requires CStrings(table) && r in table && Lists(r, w)
    ensures NUL !in w && LowerAll(w) == w
  {
    var v :| v in r.words && LowerAll(v) == w;
    LowerWord(v);
  }

  lemma {:induction false} FiledMeans(table: seq<Row>, w: string)
    ensures Filed(table, w) == None <==> forall r <- table :: !Lists(r, w)
    ensures Filed(table, w).Some? ==> exists r <- table :: r.ty == Filed(table, w).value && Lists(r, w)
  {
    if table != [] {
      FiledMeans(table[..|table| - 1], w);
    }
  }

  // ---------- the emitted program is valid C ----------

  ghost predicate DistinctLabels(body: seq<Stmt>) {
    forall a, b | 0 <= a < b < |body| :: body[a].Case? ==> body[a] != body[b]
  }

  /** No switch has two equal labels. */
  ghost predicate ValidC(stmts: seq<Stmt>)
    decreases stmts
  {
    forall s <- stmts :: s.Switch? ==> DistinctLabels(s.body) && ValidC(s.body)
  }

  /** Lower-cased, every label is the key its case stands for. */
  ghost predicate LabelsAmong(body: seq<Stmt>, keys: seq<char>) {
    forall s <- body :: s.Case? ==> Lower(s.value) in keys
  }

  lemma {:induction false} CasesAreValid(t: Trie, keys: seq<char>, index: nat, depth: nat)
    requires Ok(t, depth) && (forall k <- keys :: k in t.kids)
    requires forall i, j | 0 <= i < j < |keys| :: keys[i] != keys[j]
    ensures var body := Cases(t, keys, index); DistinctLabels(body) && ValidC(body) && LabelsAmong(body, keys)
    decreases t, 0, |keys|
  {
    if keys != [] {
      var k := keys[0];
      var g, rest := CaseOf(k, t.kids[k], index), Cases(t, keys[1..], index);
      if k != NUL {
        DumpIsValid(t.kids[k], index + 1, depth + 1);
      }
      CasesAreValid(t, keys[1..], index, depth);
      CaseIsValid(k, t.kids[k], index);
      assert k !in keys[1..];
    }
  }

  lemma {:induction false} CaseIsValid(k: char, child: Trie, index: nat)
    requires k == NUL || (Lower(k) == k && child.Dict? && ValidC(Dump(child, index + 1)))
    ensures var g := CaseOf(k, child, index); DistinctLabels(g) && ValidC(g) && LabelsAmong(g, [k])
  {
    if k != NUL {
      NoCaseInDump(child, index + 1);
      UpperIsAnother(k);
      LabelsThenRest(k, Dump(child, index + 1));
    }
  }

  lemma NoCaseInDump(t: Trie, index: nat)
    requires t.Dict?
    ensures forall s <- Dump(t, index) :: !s.Case?
  {}

  lemma UpperIsAnother(k: char)
    requires Lower(k) == k
    ensures Lower(Upper(k)) == k
  {}

  lemma {:induction false} LabelsThenRest(k: char, rest: seq<Stmt>)
    requires Lower(Upper(k)) == Lower(k) == k && ValidC(rest) && forall s <- rest :: !s.Case?
    ensures var g := (if k != Upper(k) then [Case(k), Case(Upper(k))] else [Case(k)]) + rest;
            DistinctLabels(g) && ValidC(g) && LabelsAmong(g, [k])
  {
    hide Lower, Upper;
    var labels := if k != Upper(k) then [Case(k), Case(Upper(k))] else [Case(k)];
    var g := labels + rest;
    assert forall i | |labels| <= i < |g| :: g[i] in rest;
    forall s <- g ensures s in labels || s in rest {}
  }

  /** In every switch the emitted program contains, all labels are different. */
  lemma {:induction false} DumpIsValid(t: Trie, index: nat, depth: nat)
    requires Ok(t, depth)
    ensures ValidC(Dump(t, index))
    decreases t, 1, 0
  {
    hide Cases, SortedKeys, DistinctLabels, LabelsAmong;
    CasesAreValid(t, SortedKeys(t.kids.Keys), index, depth);
  }

  // ---------- the answer, spelled out ----------

  /** The same letter, in either case, or the same character. */
  predicate SameLetter(a: char, b: char) {
    a == b || ('a' <= a <= 'z' && a as int == b as int + 32) || ('a' <= b <= 'z' && b as int == a as int + 32)
  }

  predicate SameIgnoringCase(s: string, t: string) {
    |s| == |t| && forall i | 0 <= i < |s| :: SameLetter(s[i], t[i])
  }

  predicate HasWord(row: Row, ext: string) {
    exists v <- row.words :: SameIgnoringCase(v, ext)
  }

  /** The answer is the type of the last row that has the word, and zero if no row has it. */
  ghost predicate LastRowDecides(answer: Answer, table: seq<Row>, ext: string) {
    if forall row <- table :: !HasWord(row, ext) then answer == Zero
    else exists i | 0 <= i < |table| ::
           answer == Media(table[i].ty) && HasWord(table[i], ext) && forall j | i < j < |table| :: !HasWord(table[j], ext)
  }

  lemma {:induction false} LowerMeans(s: string, t: string)
    ensures LowerAll(s) == LowerAll(t) <==> SameIgnoringCase(s, t)
  {
    hide LowerAll, SameIgnoringCase;
    if LowerAll(s) == LowerAll(t) {
      SameLower(s, t);
    }
    if SameIgnoringCase(s, t) {
      LowerSame(s, t);
    }
  }

  lemma {:induction false} LowerSame(s: string, t: string)
    requires SameIgnoringCase(s, t)
    ensures LowerAll(s) == LowerAll(t)
  {
    forall i | 0 <= i < |s| ensures Lower(s[i]) == Lower(t[i]) {
      assert SameLetter(s[i], t[i]);
    }
    hide Lower, SameIgnoringCase;
  }

  lemma {:induction false} SameLower(s: string, t: string)
    requires LowerAll(s) == LowerAll(t)
    ensures SameIgnoringCase(s, t)
  {
    forall i | 0 <= i < |s| ensures SameLetter(s[i], t[i]) {
      assert LowerAll(s)[i] == LowerAll(t)[i];
    }
  }

  lemma ListsMeans(row: Row, ext: string)
    ensures Lists(row, LowerAll(ext)) <==> HasWord(row, ext)
  {
    hide LowerAll, SameIgnoringCase;
    forall v <- row.words ensures LowerAll(v) == LowerAll(ext) <==> SameIgnoringCase(v, ext) {
      LowerMeans(v, ext);
    }
  }

  lemma {:induction false} LastListedMeans(table: seq<Row>, ext: string)
    ensures LastRowDecides(LastListed(table, ext), table, ext)
    decreases |table|
  {
    hide HasWord, Lists, LowerAll;
    if table != [] {
      var init, last := table[..|table| - 1], table[|table| - 1];
      ListsMeans(last, ext);
      LastListedMeans(init, ext);
      if HasWord(last, ext) {
        assert last in table;
      } else {
        assert LastListed(table, ext) == LastListed(init, ext);
        assert forall row <- table :: row in init || row == last;
        assert forall row <- init :: row in table;
        if i :| 0 <= i < |init| && LastListed(init, ext) == Media(init[i].ty) && HasWord(init[i], ext)
                && forall j | i < j < |init| :: !HasWord(init[j], ext)
        {
          assert table[i] == init[i];
          assert forall j | i < j < |table| :: table[j] == (if j < |init| then init[j] else last);
        }
      }
    }
  }

  // ---------- the whole script ----------

  /** matchgen.py: for every table whose words have at most five characters, a valid program, in which the
      last row that lists a word decides; so it answers correctly for every string if and only if no word is listed
      under two types. */
  method Generate(table: seq<Row>) returns (program: Option<seq<Stmt>>)
    requires CStrings(table)
    ensures program.Some? <==> forall row <- table, v <- row.words :: |v| <= 5
    ensures program.Some? ==> ValidC(program.value)
    ensures program.Some? ==>
              forall ext | NUL !in ext :: LastRowDecides(MatchExtension(program.value, ext), table, ext)
    ensures program.Some? ==>
              (NoWordTwice(table) <==> forall ext | NUL !in ext :: Answers(program.value, table, ext))
  {
    hide Answers, Dump, ValidC, Filed, Lookup, NoWordTwice, MatchExtension, LastListed, LastRowDecides;
    var trie := BuildTrie(table);
    if trie.None? {
      return None;
    }
    var t := trie.value;
    DumpIsValid(t, 0, 0);
    forall ext | NUL !in ext
      ensures LastRowDecides(MatchExtension(Dump(t, 0), ext), table, ext)
      ensures NoWordTwice(table) ==> Answers(Dump(t, 0), table, ext)
    {
      DumpAnswers(t, table, ext);
      LastListedMeans(table, ext);
    }
    if forall ext | NUL !in ext :: Answers(Dump(t, 0), table, ext) {
      AnswersNeedOneType(Dump(t, 0), table);
    }
    return Some(Dump(t, 0));
  }
}
