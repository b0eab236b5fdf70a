/** Which characters names may be made of: for whole runs, the exact condition under which the path index
    is right, and the one under which no two live folders share a path. They are the same. */
module FolderAlphabets {
  import opened Wrappers
  import opened Text
  import opened FolderModel
  import opened FolderLinks
  import opened FolderIndex
  import opened FolderRuns
  import opened FolderNames
  import opened FolderClashes

  /** The operation names folders with characters of this set only. */
  predicate NamesOver(op: Op, chars: set<char>) {
    && (op.CreateOp? ==> forall i :: 0 <= i < |op.name| ==> op.name[i] in chars)
    && (op.RenameOp? && op.newName.Some? ==> forall i :: 0 <= i < |op.newName.value| ==> op.newName.value[i] in chars)
  }

  /** A run of requests that names folders with characters of this set only. */
  ghost predicate RunOver(ops: seq<Op>, chars: set<char>) {
    FreshIds(ops) && forall i :: 0 <= i < |ops| ==> NamesOver(ops[i], chars)
  }

  /** The index is right about every live folder. */
  ghost predicate AllRight(t: Table) {
    forall x :: Live(t, x) ==> IndexRight(t, x)
  }

  /** Exactly which characters names may be made of: the index is right about every live folder after
      every run if and only if none of '/', '%', '_', '$' and the backslash can occur in a name. */
  lemma RunsKeepIndexIff(chars: set<char>)
    ensures (forall ops :: RunOver(ops, chars) ==> AllRight(Run(ops))) <==> chars !! {'/', '%', '_', '\\', '$'}
  {
    if chars !! {'/', '%', '_', '\\', '$'} {
      forall ops | RunOver(ops, chars) ensures AllRight(Run(ops)) { HarmlessRun(ops, chars); }
    } else {
      var ops := ClashingRun(chars);
      RightIsUnique(Run(ops));
    }
  }

  /** No two live folders of a tenant share a path after any run, under the same condition: each of the
      five characters alone is enough to bring two live folders to one path. */
  lemma RunsKeepPathsUniqueIff(chars: set<char>)
    ensures (forall ops :: RunOver(ops, chars) ==> UniquePaths(Run(ops))) <==> chars !! {'/', '%', '_', '\\', '$'}
  {
    if chars !! {'/', '%', '_', '\\', '$'} {
      forall ops | RunOver(ops, chars) ensures UniquePaths(Run(ops)) {
        HarmlessRun(ops, chars);
        RightIsUnique(Run(ops));
      }
    } else {
      var ops := ClashingRun(chars);
    }
  }

  /** The condition on single creations does not carry over to runs: each of these three names meets it, but
      the first one leaves the index out of order, and the third then shares its path. */
  lemma StepsDoNotAddUp()
    ensures NoClash("a%/b") && NoClash("a%") && NoClash("b")
    ensures FreshIds(TwoRoots("a%/b", "a%", "b")) && !UniquePaths(Run(TwoRoots("a%/b", "a%", "b")))
  {
    PercentPasses();
    hide NoClash;
    assert "a%" + "/" + "b" == "a%/b" == ChildPath("a%", "b");
    assert |"a%/b"| != |"a%"|;
    TwoRootsRun("a%/b", "a%", "b");
    var t := Run(TwoRoots("a%/b", "a%", "b"));
    hide Run;
    assert Live(t, 1) && Live(t, 3) && t[1].path == t[3].path;
  }

  lemma PercentPasses()
    ensures NoClash("a%/b") && NoClash("a%") && NoClash("b")
  {
    hide Split;
    SplitFlat("a%");
    SplitSnoc("a%", "b");
    assert "a%" + "/" + "b" == "a%/b";
    var n := Split("a%/b")[0];
    assert n == "a%" && n[1] == '%' && !CleanName(n);
  }

  lemma HarmlessRun(ops: seq<Op>, chars: set<char>)
    requires RunOver(ops, chars) && chars !! {'/', '%', '_', '\\', '$'}
    ensures AllRight(Run(ops))
  {
    forall i | 0 <= i < |ops| ensures CleanOp(ops[i]) { assert NamesOver(ops[i], chars); }
    forall x | Live(Run(ops), x) ensures IndexRight(Run(ops), x) { RunKeepsIndex(ops, x); }
  }

  lemma RightIsUnique(t: Table)
    ensures AllRight(t) ==> UniquePaths(t)
  {
    hide Acyclic, Ancestry, Names, Matched, Below;
    if AllRight(t) {
      forall x, y | Live(t, x) && Live(t, y) && t[x].tenant == t[y].tenant && t[x].path == t[y].path
        ensures x == y
      {
        assert IndexRight(t, x) && LiveIn(t, t[x].tenant, y);
      }
    }
  }

  // ---------- Runs over one character ----------

  /** The run over this one character leaves this table. */
  ghost predicate Made(ops: seq<Op>, t: Table, c: char) {
    RunOver(ops, {c}) && Run(ops) == t
  }

  lemma NothingMade(c: char)
    ensures Made([], map[], c)
  {
  }

  predicate Only(name: string, c: char) {
    name != "" && forall i :: 0 <= i < |name| ==> name[i] == c
  }

  lemma OneMore(ops: seq<Op>, op: Op, chars: set<char>)
    requires RunOver(ops, chars) && NamesOver(op, chars) && (op.CreateOp? ==> Unused(Run(ops), op.id))
    ensures RunOver(ops + [op], chars) && Run(ops + [op]) == Apply(Run(ops), op).0
  {
    RunStep(ops, op);
  }

  /** No folder there has a name of this length. */
  predicate NewLength(t: Table, parent: Option<Id>, name: string) {
    forall y :: y in t && t[y].parent == parent ==> |t[y].name| != |name|
  }

  lemma Add(ops: seq<Op>, t: Table, c: char, id: Id, name: string, parent: Option<Id>) returns (more: seq<Op>, u: Table)
    requires Made(ops, t, c) && Only(name, c) && !IsSpace(c) && Unused(t, id) && NewLength(t, parent, name)
    requires parent.Some? ==> LiveIn(t, 0, parent.value) && t[parent.value].path != ""
    ensures Made(more, u, c) && u == Inserted(t, 0, id, name, parent)
  {
    var op := CreateOp(0, id, name, parent);
    OneMore(ops, op, {c});
    more, u := ops + [op], Inserted(t, 0, id, name, parent);
    assert !IsSpace(name[0]);
  }

  lemma Clash(ops: seq<Op>, t: Table, c: char, x: Id, y: Id)
    requires Made(ops, t, c) && Live(t, x) && Live(t, y) && x != y
    requires t[x].tenant == t[y].tenant && t[x].path == t[y].path
    ensures RunOver(ops, {c}) && !UniquePaths(Run(ops))
  {
    hide RunOver;
  }

  lemma GiveName(ops: seq<Op>, t: Table, c: char, x: Id, name: string) returns (more: seq<Op>, u: Table)
    requires Made(ops, t, c) && Only(name, c)
    ensures Made(more, u, c) && u == Rename(t, 0, x, Some(name)).0
  {
    var op := RenameOp(0, x, Some(name));
    OneMore(ops, op, {c});
    more, u := ops + [op], Rename(t, 0, x, Some(name)).0;
  }

  lemma WiderRun(ops: seq<Op>, c: char, chars: set<char>)
    requires RunOver(ops, {c}) && c in chars
    ensures RunOver(ops, chars)
  {
    forall i | 0 <= i < |ops| ensures NamesOver(ops[i], chars) { assert NamesOver(ops[i], {c}); }
  }

  /** Folders named with one of the five characters alone come to share a path. */
  lemma ClashingRun(chars: set<char>) returns (ops: seq<Op>)
    requires !(chars !! {'/', '%', '_', '\\', '$'})
    ensures RunOver(ops, chars) && !UniquePaths(Run(ops))
  {
    var c :| c in chars && c in {'/', '%', '_', '\\', '$'};
    hide UniquePaths, RunOver;
    if c == '/' {
      ops := SlashRun();
    } else if c == '%' {
      ops := PercentRun();
    } else if c == '_' {
      ops := UnderscoreRun();
    } else {
      ops := StaleRun(c);
    }
    WiderRun(ops, c, chars);
  }

  /** "///" at the root, and "/" below "/". */
  lemma SlashRun() returns (ops: seq<Op>)
    ensures RunOver(ops, {'/'}) && !UniquePaths(Run(ops))
  {
    var t;
    NothingMade('/');
    hide RunOver, UniquePaths, Made, IsSpace;
    NotSpace('/');
    ops, t := Add([], map[], '/', 1, "///", None);
    ops, t := Add(ops, t, '/', 2, "/", None);
    ops, t := Add(ops, t, '/', 3, "/", Some(2));
    assert ChildPath("/", "/") == "///";
    Clash(ops, t, '/', 1, 3);
  }

  /** A child stays behind when its parent is renamed, and a new folder takes the parent's old path. The
      child of "\" is not matched by the subtree query; the template "$$" stands for the old path "$". */
  lemma StaleRun(c: char) returns (ops: seq<Op>)
    requires c == '\\' || c == '$'
    ensures RunOver(ops, {c}) && !UniquePaths(Run(ops))
  {
    var a, b := [c], [c, c];
    var t;
    NothingMade(c);
    hide RunOver, UniquePaths, Made, IsSpace, Rename;
    NotSpace(c);
    ops, t := Add([], map[], c, 1, a, None);
    ops, t := Add(ops, t, c, 2, a, Some(1));
    assert t == map[1 := Row(0, None, a, a, false), 2 := Row(0, Some(1), a, ChildPath(a, a), false)];
    ChildStays(t, c);
    ops, t := GiveName(ops, t, c, 1, b);
    ops, t := Add(ops, t, c, 3, a, None);
    ops, t := Add(ops, t, c, 4, a, Some(3));
    Clash(ops, t, c, 2, 4);
  }

  lemma ChildStays(t: Table, c: char)
    requires c == '\\' || c == '$'
    requires t == map[1 := Row(0, None, [c], [c], false), 2 := Row(0, Some(1), [c], ChildPath([c], [c]), false)]
    ensures Rename(t, 0, 1, Some([c, c])).0 ==
            map[1 := Row(0, None, [c, c], [c, c], false), 2 := Row(0, Some(1), [c], ChildPath([c], [c]), false)]
  {
    hide InSubtree, Replace, Taken;
    LengthIsFree(t, None, [c, c], 1);
    assert !InSubtree(t[2].path, [c]) || Replace(t[2].path, [c], [c, c]) == t[2].path by {
      if c == '$' { DollarStays(); } else { BackslashMisses(); }
    }
  }

  lemma LengthIsFree(t: Table, parent: Option<Id>, name: string, x: Id)
    requires forall y :: y in t && t[y].parent == parent && y != x ==> |t[y].name| != |name|
    ensures !Taken(t, 0, parent, name, Some(x))
  {
  }

  lemma NotSpace(c: char)
    requires c in {'/', '%', '_', '\\', '$'}
    ensures !IsSpace(c)
  {
  }

  lemma BackslashMisses()
    ensures !InSubtree(ChildPath("\\", "\\"), "\\")
  {
    var q := "\\" + "/%";
    assert q[0] == '\\' && q[1] == '/' && ChildPath("\\", "\\")[0] == '\\';
  }

  lemma DollarStays()
    ensures Replace(ChildPath("$", "$"), "$", "$$") == ChildPath("$", "$")
  {
    var s := ChildPath("$", "$");
    assert "$" <= s && s[..0] == "" && s[1..] == "/$";
    assert "$$"[2..] == "" && Expand("$$", "$", "", "/$") == "$" + Expand("", "$", "", "/$");
  }

  /** The child of "%%%" is carried along when "%" is renamed to "%%"; then "%%%%" gets such a child. */
  lemma PercentRun() returns (ops: seq<Op>)
    ensures RunOver(ops, {'%'}) && !UniquePaths(Run(ops))
  {
    var t;
    NothingMade('%');
    hide RunOver, UniquePaths, Made, IsSpace, Rename;
    NotSpace('%');
    ops, t := Add([], map[], '%', 1, "%%%", None);
    ops, t := Add(ops, t, '%', 2, "%", Some(1));
    ops, t := Add(ops, t, '%', 3, "%", None);
    PercentCarries(t);
    ops, t := GiveName(ops, t, '%', 3, "%%");
    ops, t := PercentEnds(ops, t);
    Clash(ops, t, '%', 2, 5);
  }

  lemma PercentEnds(ops: seq<Op>, t: Table) returns (more: seq<Op>, u: Table)
    requires Made(ops, t, '%')
    requires t == map[1 := Row(0, None, "%%%", "%%%", false), 2 := Row(0, Some(1), "%", ChildPath("%%%%", "%"), false),
                      3 := Row(0, None, "%%", "%%", false)]
    ensures Made(more, u, '%') && Live(u, 2) && Live(u, 5) && u[2].tenant == u[5].tenant && u[2].path == u[5].path
  {
    hide Made, IsSpace;
    NotSpace('%');
    more, u := Add(ops, t, '%', 4, "%%%%", None);
    more, u := Add(more, u, '%', 5, "%", Some(4));
  }

  lemma PercentCarries(t: Table)
    requires t == map[1 := Row(0, None, "%%%", "%%%", false), 2 := Row(0, Some(1), "%", ChildPath("%%%", "%"), false),
                      3 := Row(0, None, "%", "%", false)]
    ensures Rename(t, 0, 3, Some("%%")).0 ==
            map[1 := Row(0, None, "%%%", "%%%", false), 2 := Row(0, Some(1), "%", ChildPath("%%%%", "%"), false),
                3 := Row(0, None, "%%", "%%", false)]
  {
    hide InSubtree, Replace, Taken;
    LengthIsFree(t, None, "%%", 3);
    PercentMatches();
  }

  /** A slash further on: a path with a child's name matches the subtree query of "%". */
  lemma {:induction false} PercentMatches()
    ensures InSubtree(ChildPath("%%%", "%"), "%") && !InSubtree("%%%", "%")
    ensures Replace(ChildPath("%%%", "%"), "%", "%%") == ChildPath("%%%%", "%")
  {
    var q := "%" + "/%";
    assert q[0] == '%' && q[1..] == "/%";
    LikeIsPrefix("", "/%");
    assert "" + "/%" == "/%" && "" + "/" == "/" <= "/%";
    var s := ChildPath("%%%", "%");
    assert s == "%%%/%" && s[1..] == "%%/%" && "%%/%"[1..] == "%/%" && "%/%"[1..] == "/%";
    assert Like("/%", q);
    assert Like("%/%", q);
    assert Like("%%/%", q);
    SlashNeeded("%%%", q);
    assert "%" <= s && s[..0] == "";
    ReplacePrefix(s, "%", "%%");
    assert "%%" + "%%/%" == ChildPath("%%%%", "%");
  }

  lemma {:induction false} SlashNeeded(s: string, q: string)
    requires q == "%/%" && '/' !in s
    ensures !Like(s, q)
  {
    assert q[1..] == "/%";
    if s != "" { SlashNeeded(s[1..], q); }
  }

  /** Below "_/_" a folder "___" becomes "__", which is there already, when the root "___" becomes "__". */
  lemma UnderscoreRun() returns (ops: seq<Op>)
    ensures RunOver(ops, {'_'}) && !UniquePaths(Run(ops))
  {
    var t;
    NothingMade('_');
    hide RunOver, UniquePaths, Made, IsSpace, Rename;
    NotSpace('_');
    ops, t := Add([], map[], '_', 1, "___", None);
    ops, t := Add(ops, t, '_', 2, "_", None);
    ops, t := Add(ops, t, '_', 3, "_", Some(2));
    ops, t := UnderscoreEnds(ops, t);
    UnderscoreCarries(t);
    ops, t := GiveName(ops, t, '_', 1, "__");
    Clash(ops, t, '_', 4, 5);
  }

  lemma UnderscoreEnds(ops: seq<Op>, t: Table) returns (more: seq<Op>, u: Table)
    requires Made(ops, t, '_')
    requires t == map[1 := Row(0, None, "___", "___", false), 2 := Row(0, None, "_", "_", false),
                      3 := Row(0, Some(2), "_", ChildPath("_", "_"), false)]
    ensures Made(more, u, '_')
    ensures u == t[4 := Row(0, Some(3), "___", ChildPath(ChildPath("_", "_"), "___"), false)]
                  [5 := Row(0, Some(3), "__", ChildPath(ChildPath("_", "_"), "__"), false)]
  {
    hide Made, IsSpace;
    NotSpace('_');
    more, u := Add(ops, t, '_', 4, "___", Some(3));
    more, u := Add(more, u, '_', 5, "__", Some(3));
  }

  lemma UnderscoreCarries(t: Table)
    requires 1 in t && t[1] == Row(0, None, "___", "___", false) && t.Keys == {1, 2, 3, 4, 5}
    requires t[2] == Row(0, None, "_", "_", false) && t[3] == Row(0, Some(2), "_", ChildPath("_", "_"), false)
    requires t[4] == Row(0, Some(3), "___", ChildPath(ChildPath("_", "_"), "___"), false)
    requires t[5] == Row(0, Some(3), "__", ChildPath(ChildPath("_", "_"), "__"), false)
    ensures var u := Rename(t, 0, 1, Some("__")).0;
            4 in u && 5 in u && Live(u, 4) && Live(u, 5) && u[4].tenant == u[5].tenant && u[4].path == u[5].path
  {
    hide InSubtree, Replace, Taken;
    LengthIsFree(t, None, "__", 1);
    UnderscoresMatch("___");
    UnderscoresReplaced();
  }

  lemma UnderscoresMatch(n: string)
    ensures InSubtree(ChildPath(ChildPath("_", "_"), n), "___")
  {
    var s := ChildPath(ChildPath("_", "_"), n);
    var q := "___" + "/%";
    assert s[1..] == "/_/" + n && s[1..][1..] == "_/" + n && s[1..][1..][1..] == "/" + n;
    assert q[1..] == "__/%" && "__/%"[1..] == "_/%" && "_/%"[1..] == "/%";
    LikeIsPrefix("", "/" + n);
    assert "" + "/%" == "/%" && "" + "/" == "/" <= "/" + n;
    assert Like(s[1..][1..], "_/%");
    assert Like(s[1..], "__/%");
  }

  lemma UnderscoresReplaced()
    ensures Replace(ChildPath(ChildPath("_", "_"), "___"), "___", "__") == ChildPath(ChildPath("_", "_"), "__")
    ensures Replace(ChildPath(ChildPath("_", "_"), "__"), "___", "__") == ChildPath(ChildPath("_", "_"), "__")
  {
    var s, t := "_/_/___", "_/_/__";
    assert ChildPath(ChildPath("_", "_"), "___") == s && ChildPath(ChildPath("_", "_"), "__") == t;
    assert s[1..] == "/_/___" && "/_/___"[1..] == "_/___" && "_/___"[1..] == "/___" && "/___"[1..] == "___";
    assert s[1] == '/' && "/_/___"[0] == '/' && "_/___"[1] == '/' && "/___"[0] == '/';
    assert IndexOf("___", "___") == 0;
    assert IndexOf("/___", "___") == 1;
    assert IndexOf("_/___", "___") == 2;
    assert IndexOf("/_/___", "___") == 3;
    assert IndexOf(s, "___") == 4;
    NoTemplateExpands("__", "___", s[..4], s[7..]);
    assert s[..4] == "_/_/" && s[7..] == "" && "_/_/" + "__" + "" == t;
    NotInShort(t);
  }

  lemma NotInShort(t: string)
    requires t == "_/_/__"
    ensures IndexOf(t, "___") < 0
  {
    assert t[1..] == "/_/__" && "/_/__"[1..] == "_/__" && "_/__"[1..] == "/__" && "/__"[1..] == "__";
    assert t[1] == '/' && "/_/__"[0] == '/' && "_/__"[1] == '/' && "/__"[0] == '/';
    assert "__"[1..] == "_" && "_"[1..] == "";
    assert IndexOf("", "___") < 0;
    assert IndexOf("_", "___") < 0;
    assert IndexOf("__", "___") < 0;
    assert IndexOf("/__", "___") < 0;
    assert IndexOf("_/__", "___") < 0;
    assert IndexOf("/_/__", "___") < 0;
  }
}
