/** Paths as lists of names: when every name on a path is clean, read off the path character by
    character, and what expanding a template does to that. */
module CleanPaths {
  import opened Text
  import opened FolderIndex

  predicate AllClean(ns: seq<string>) {
    forall i :: 0 <= i < |ns| ==> CleanName(ns[i])
  }

  lemma AllCleanConcat(a: seq<string>, b: seq<string>)
    ensures AllClean(a + b) <==> AllClean(a) && AllClean(b)
  {
    hide CleanName;
    if AllClean(a + b) {
      assert forall i :: 0 <= i < |a| ==> (a + b)[i] == a[i];
      assert forall i :: 0 <= i < |b| ==> (a + b)[|a| + i] == b[i];
    }
  }

  lemma AllCleanOne(n: string)
    ensures AllClean([n]) <==> CleanName(n)
  {
    hide CleanName;
    assert [n][0] == n;
  }

  lemma Regroup(a: string, b: string, c: string)
    ensures (a + b) + c == a + (b + c)
  {
  }

  /** A path followed by a longer one splits into the two lists of names. */
  lemma {:induction false} SplitUnder(q: string, p: string)
    ensures Split(q + "/" + p) == Split(q) + Split(p)
    decreases |p|
  {
    hide Split;
    var i := LastSlash(p);
    if i < 0 {
      assert p[0..] == p;
      SplitFlat(p);
      SplitSnoc(q, p);
    } else {
      var up, n := p[..i], p[i + 1..];
      CutAtSlash(p, i);
      Regroup(q + "/", up + "/", n);
      Regroup(q + "/", up, "/");
      SplitSnoc(q + "/" + up, n);
      SplitUnder(q, up);
      SplitSnoc(up, n);
    }
  }

  /** The first name begins the path. */
  lemma {:induction false} FirstName(ns: seq<string>)
    requires |ns| > 0
    ensures ns[0] <= Join(ns)
  {
    if |ns| > 1 {
      FirstName(ns[..|ns| - 1]);
      assert Join(ns[..|ns| - 1]) <= Join(ns);
    }
  }

  // ---------- Clean paths, character by character ----------

  /** c may follow prev on a path of clean names. */
  predicate Follows(prev: char, c: char) {
    c != '%' && c != '_' && c != '\\' && !(prev == '/' && c == '/') && !(prev == '$' && Special(c))
  }

  predicate Good(prev: char, s: string)
    decreases |s|
  {
    s == "" || (Follows(prev, s[0]) && Good(s[0], s[1..]))
  }

  function Last(prev: char, s: string): char {
    if s == "" then prev else s[|s| - 1]
  }

  lemma {:induction false} GoodConcat(prev: char, a: string, b: string)
    ensures Good(prev, a + b) <==> Good(prev, a) && Good(Last(prev, a), b)
    decreases |a|
  {
    if a == "" {
      assert a + b == b;
    } else {
      assert (a + b)[1..] == a[1..] + b;
      GoodConcat(a[0], a[1..], b);
      assert Last(a[0], a[1..]) == Last(prev, a);
    }
  }

  lemma {:induction false} GoodName(prev: char, n: string)
    requires '/' !in n
    ensures Good(prev, n + "/") <==> NoWildcards(n) && NoTemplate([prev] + n) && (n == "" ==> prev != '/')
    decreases |n|
  {
    if n == "" {
      assert n + "/" == "/" && "/"[1..] == "";
    } else {
      var r := n[1..];
      assert (n + "/")[1..] == r + "/" && n == [n[0]] + r;
      GoodName(n[0], r);
      WildcardsCons(n);
      TemplateCons(prev, n);
    }
  }

  lemma WildcardsCons(n: string)
    requires n != ""
    ensures NoWildcards(n) <==> n[0] != '%' && n[0] != '_' && n[0] != '\\' && NoWildcards(n[1..])
  {
    assert n == [n[0]] + n[1..];
  }

  lemma TemplateCons(prev: char, n: string)
    requires n != ""
    ensures NoTemplate([prev] + n) <==> !(prev == '$' && Special(n[0])) && NoTemplate(n)
  {
    var s := [prev] + n;
    assert forall k :: 0 <= k < |n| ==> s[k + 1] == n[k];
    if NoTemplate(s) {
      assert s[0] == prev && s[1] == n[0];
      forall i | 0 <= i < |n| - 1 && n[i] == '$' ensures !Special(n[i + 1]) { assert s[i + 1] == '$'; }
    } else {
      var i :| 0 <= i < |s| - 1 && s[i] == '$' && Special(s[i + 1]);
      if i > 0 { assert n[i - 1] == '$' && Special(n[i]); }
    }
  }

  lemma CleanIsGood(n: string)
    requires '/' !in n
    ensures CleanName(n) <==> Good('/', n + "/")
  {
    GoodName('/', n);
    if n != "" { TemplateCons('/', n); }
  }

  /** All names on a path are clean exactly when its characters, one after another, allow it. */
  lemma {:induction false} AllCleanIffGood(p: string)
    ensures AllClean(Split(p)) <==> Good('/', p + "/")
    decreases |p|
  {
    hide CleanName, Good, Split, AllClean;
    var i := LastSlash(p);
    if i < 0 {
      assert p[0..] == p;
      CleanIsGood(p);
      SplitFlat(p);
      AllCleanOne(p);
    } else {
      var up, n := p[..i], p[i + 1..];
      CutAtSlash(p, i);
      AllCleanOne(n);
      AllCleanIffGood(up);
      CleanIsGood(n);
      SplitSnoc(up, n);
      AllCleanConcat(Split(up), [n]);
      assert p + "/" == (up + "/") + (n + "/");
      GoodConcat('/', up + "/", n + "/");
      assert Last('/', up + "/") == '/';
    }
  }

  // ---------- Templates ----------

  /** Neither a separator nor the start of a template. */
  predicate Neutral(c: char) {
    c != '/' && c != '$'
  }

  /** A path that may stand anywhere. */
  predicate Plain(m: string) {
    m != "" && m[0] != '/' && !Special(m[0]) && Good('a', m) && Neutral(m[|m| - 1])
  }

  /** A rest of a path that may stand after any name. */
  predicate PlainTail(a: string) {
    a != "" && a[0] == '/' && Good('a', a) && Neutral(a[|a| - 1])
  }

  /** Whether an expanded template is good does not depend on what is put in for its pieces, as long
      as that is plain. */
  lemma {:induction false} GoodExpansion(r: string, m: string, a: string, m': string, a': string, p: char, p': char)
    requires a != "" && a[0] == '/' && Plain(m') && PlainTail(a') && (p' == p || Neutral(p'))
    requires Good(p, Expand(r, m, "", a) + "/")
    ensures Good(p', Expand(r, m', "", a') + "/")
    decreases |r|
  {
    if r == "" {
      assert Expand(r, m, "", a) + "/" == "/" && Expand(r, m', "", a') + "/" == "/";
    } else {
      var n := if r[0] == '$' && |r| >= 2 && Special(r[1]) then 2 else 1;
      var x := if n == 2 then Piece(r[1], m, "", a) else [r[0]];
      var x' := if n == 2 then Piece(r[1], m', "", a') else [r[0]];
      var e, e' := Expand(r[n..], m, "", a), Expand(r[n..], m', "", a');
      assert Expand(r, m, "", a) + "/" == x + (e + "/");
      assert Expand(r, m', "", a') + "/" == x' + (e' + "/");
      GoodConcat(p, x, e + "/");
      GoodConcat(p', x', e' + "/");
      GoodPiece(p, p', x, x', m', a');
      GoodExpansion(r[n..], m, a, m', a', Last(p, x), Last(p', x'));
    }
  }

  lemma GoodPiece(p: char, p': char, x: string, x': string, m': string, a': string)
    requires Plain(m') && PlainTail(a') && (p' == p || Neutral(p')) && Good(p, x)
    requires (x' == x && |x| <= 1) || x' == m' || (x' == a' && x != "" && x[0] == '/')
    ensures Good(p', x') && (Last(p', x') == Last(p, x) || Neutral(Last(p', x')))
  {
  }

  lemma CleanExpansion(r: string, m: string, a: string, m': string, a': string)
    requires a != "" && a[0] == '/' && Plain(m') && PlainTail(a')
    requires AllClean(Split(Expand(r, m, "", a)))
    ensures AllClean(Split(Expand(r, m', "", a')))
  {
    AllCleanIffGood(Expand(r, m, "", a));
    AllCleanIffGood(Expand(r, m', "", a'));
    GoodExpansion(r, m, a, m', a', '/', '/');
  }

  /** The text before a template is copied. */
  lemma {:induction false} ExpandSkips(q: string, r: string, m: string, b: string, a: string)
    requires NoTemplate(q) && (q != "" ==> q[|q| - 1] != '$')
    ensures Expand(q + r, m, b, a) == q + Expand(r, m, b, a)
  {
    if q == "" {
      assert q + r == r;
    } else {
      assert (q + r)[1..] == q[1..] + r;
      if |q| > 1 { assert (q + r)[1] == q[1]; }
      ExpandSkips(q[1..], r, m, b, a);
    }
  }

  /** A template, or a character that does not start one with what follows. */
  predicate Unit(h: string, s: string) {
    if |h| == 1 then h[0] == '$' && s != "" ==> !Special(s[0])
    else |h| == 2 && h[0] == '$' && Special(h[1])
  }

  lemma ExpandUnit(h: string, s: string, m: string, b: string, a: string)
    requires Unit(h, s)
    ensures Expand(h + s, m, b, a) == Expand(h, m, b, a) + Expand(s, m, b, a)
  {
    assert (h + s)[|h|..] == s && h[|h|..] == "";
    if |h| == 1 && s != "" { assert (h + s)[1] == s[0]; }
  }

  /** The text after a template is expanded on its own, if it cannot complete one. */
  lemma {:induction false} ExpandConcat(q: string, r: string, m: string, b: string, a: string)
    requires r != "" && !Special(r[0])
    ensures Expand(q + r, m, b, a) == Expand(q, m, b, a) + Expand(r, m, b, a)
    decreases |q|
  {
    if q == "" {
      assert q + r == r;
    } else {
      var k := if q[0] == '$' && |q| >= 2 && Special(q[1]) then 2 else 1;
      var h, s := q[..k], q[k..];
      hide Expand;
      assert q == h + s;
      ExpandConcat(s, r, m, b, a);
      ExpandUnit(h, s, m, b, a);
      FirstOf(s, r);
      ExpandUnit(h, s + r, m, b, a);
      Regroup(h, s, r);
      Regroup(Expand(h, m, b, a), Expand(s, m, b, a), Expand(r, m, b, a));
    }
  }

  lemma FirstOf(s: string, r: string)
    requires r != ""
    ensures s + r != "" && (s + r)[0] == if s == "" then r[0] else s[0]
  {
  }

  /** The path of a folder below a renamed one never becomes the new path itself. */
  lemma {:induction false} CarriedDiffers(r: string, m: string, a: string)
    requires a != "" && a[0] == '/' && NoTemplate(a)
    ensures Expand(r, m, "", a) + a != r
    decreases |r|
  {
    var e := Expand(r, m, "", a);
    if e + a == r {
      ExpandConcat(e, a, m, "", a);
      NoTemplateExpands(a, m, "", a);
      SuffixCancels(Expand(e, m, "", a) + a, e, a);
      CarriedDiffers(e, m, a);
    }
  }

  lemma {:induction false} LongerTailLonger(r: string, m: string, b: string, a: string, a': string)
    requires |a| <= |a'|
    ensures |Expand(r, m, b, a)| <= |Expand(r, m, b, a')|
  {
    if r != "" {
      if r[0] == '$' && |r| >= 2 && Special(r[1]) {
        LongerTailLonger(r[2..], m, b, a, a');
      } else {
        LongerTailLonger(r[1..], m, b, a, a');
      }
    }
  }

  /** Two folders below a renamed one keep different paths. */
  lemma CarriedApart(r: string, m: string, a: string, a': string)
    requires a != a'
    ensures Expand(r, m, "", a) + a != Expand(r, m, "", a') + a'
  {
    var e, e' := Expand(r, m, "", a), Expand(r, m, "", a');
    if |a| <= |a'| { LongerTailLonger(r, m, "", a, a'); }
    if |a| >= |a'| { LongerTailLonger(r, m, "", a', a); }
    assert (e + a)[|e|..] == a && (e' + a')[|e'|..] == a';
  }

  /** Before the first '/', an expansion with paths for its pieces is no longer than its template. */
  lemma {:induction false} FirstPieceShort(r: string, m: string, a: string, k: nat)
    requires |m| > 1 && m[1] == '/' && a != "" && a[0] == '/'
    requires k <= |Expand(r, m, "", a)| && '/' !in Expand(r, m, "", a)[..k]
    ensures k <= |r|
  {
    if r != "" && k > 0 {
      var e := Expand(r, m, "", a);
      assert forall i :: 0 <= i < k ==> e[i] == e[..k][i];
      if r[0] == '$' && |r| >= 2 && Special(r[1]) {
        var x, e' := Piece(r[1], m, "", a), Expand(r[2..], m, "", a);
        assert |x| > 0 ==> e[0] == x[0];
        assert |x| > 1 ==> e[1] == x[1];
        if |x| < k {
          assert forall i :: 0 <= i < k - |x| ==> e'[i] == e[i + |x|];
          FirstPieceShort(r[2..], m, a, k - |x|);
        }
      } else {
        var e' := Expand(r[1..], m, "", a);
        assert forall i :: 0 <= i < k - 1 ==> e'[i] == e[i + 1];
        FirstPieceShort(r[1..], m, a, k - 1);
      }
    }
  }
}
