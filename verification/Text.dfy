/** The string operations the services lean on: SQL `LIKE`, `String.prototype.replace`
    with a string pattern, splitting a path on '/', and bytewise string order. */
module Text {

  // ---------- SQL LIKE ----------

  /** `s LIKE p` with the default escape character. '%' matches any run of characters, '_' any
      one character, and a backslash takes the next character literally. (A pattern ending in a
      lone backslash is an error in the database; no pattern built by the services ends so.) */
  predicate Like(s: string, p: string)
    decreases |p| + |s|
  {
    if p == "" then s == ""
    else if p[0] == '%' then Like(s, p[1..]) || (s != "" && Like(s[1..], p))
    else if s == "" then false
    else if p[0] == '_' then Like(s[1..], p[1..])
    else if p[0] == '\\' && |p| > 1 then s[0] == p[1] && Like(s[1..], p[2..])
    else s[0] == p[0] && Like(s[1..], p[1..])
  }

  predicate NoWildcards(p: string) {
    '%' !in p && '_' !in p && '\\' !in p
  }

  lemma {:induction false} LikeLiteral(c: string, s: string, q: string)
    requires NoWildcards(c)
    ensures Like(s, c + q) <==> c <= s && Like(s[|c|..], q)
  {
    if c == "" {
      assert c + q == q && s[|c|..] == s;
    } else {
      assert (c + q)[1..] == c[1..] + q;
      if s != "" {
        LikeLiteral(c[1..], s[1..], q);
        assert c <= s <==> s[0] == c[0] && c[1..] <= s[1..] by {
          assert c == [c[0]] + c[1..] && s == [s[0]] + s[1..];
        }
        if c <= s { assert s[1..][|c| - 1..] == s[|c|..]; }
      }
    }
  }

  lemma {:induction false} LikeAnything(s: string)
    ensures Like(s, "%")
  {
    if s != "" { LikeAnything(s[1..]); }
  }

  /** The `where` clause of the subtree queries: `LIKE path/%`. */
  predicate InSubtree(s: string, path: string) {
    Like(s, path + "/%")
  }

  /** For a path free of wildcards the subtree query means "starts with path/". */
  lemma LikeIsPrefix(p: string, s: string)
    requires NoWildcards(p)
    ensures InSubtree(s, p) <==> p + "/" <= s
  {
    assert p + "/%" == (p + "/") + "%";
    LikeLiteral(p + "/", s, "%");
    if p + "/" <= s { LikeAnything(s[|p| + 1..]); }
  }

  /** A shortest string matched by a pattern. */
  function Sample(p: string): string {
    if p == "" then ""
    else if p[0] == '%' then Sample(p[1..])
    else if p[0] == '_' then "a" + Sample(p[1..])
    else if p[0] == '\\' && |p| > 1 then [p[1]] + Sample(p[2..])
    else [p[0]] + Sample(p[1..])
  }

  lemma {:induction false} SampleMatches(p: string)
    ensures Like(Sample(p), p)
    ensures |Sample(p)| <= |p|
  {
    if p == "" {
    } else if p[0] == '\\' && |p| > 1 {
      SampleMatches(p[2..]);
    } else {
      SampleMatches(p[1..]);
    }
  }

  lemma {:induction false} SampleIsShort(r: string)
    ensures |Sample(r + "/%")| <= |r| + 1
  {
    if r == "" {
      assert "/%"[1..] == "%" && "%"[1..] == "";
      assert r + "/%" == "/%";
      assert Sample("/%") == ['/'] + Sample("%");
      assert Sample("%") == Sample("");
    } else if r[0] == '\\' {
      if |r| == 1 {
        assert (r + "/%")[2..] == "%" && "%"[1..] == "";
        assert Sample("%") == Sample("");
      } else {
        assert (r + "/%")[2..] == r[2..] + "/%";
        SampleIsShort(r[2..]);
      }
    } else {
      assert (r + "/%")[1..] == r[1..] + "/%";
      SampleIsShort(r[1..]);
    }
  }

  /** A string on which the subtree query and "starts with p/" disagree, when p has a wildcard. */
  lemma {:induction false} WildcardMisleads(p: string) returns (s: string)
    requires !NoWildcards(p)
    ensures InSubtree(s, p) && !(p + "/" <= s)
  {
    var r := p[1..];
    assert p == [p[0]] + r;
    assert (p + "/%")[1..] == r + "/%";
    assert (p + "/")[0] == p[0];
    if p[0] == '%' {
      s := "a" + Sample(r + "/%");
      SampleMatches(r + "/%");
      assert s[1..] == Sample(r + "/%");
      assert Like(s[1..], p + "/%");
    } else if p[0] == '_' {
      s := "a" + Sample(r + "/%");
      SampleMatches(r + "/%");
      assert s[1..] == Sample(r + "/%");
    } else if p[0] == '\\' {
      s := Sample(p + "/%");
      SampleMatches(p + "/%");
      if r == "" {
        assert (p + "/%")[2..] == "%" && "%"[1..] == "";
        assert Sample("%") == Sample("");
        assert |s| == 1;
      } else {
        assert (p + "/%")[2..] == r[1..] + "/%";
        SampleIsShort(r[1..]);
      }
    } else {
      var w := WildcardMisleads(r);
      s := [p[0]] + w;
      assert s[1..] == w;
      assert p + "/" == [p[0]] + (r + "/");
    }
  }

  /** Exactly when the subtree query is sound: it selects the strings starting with p/
      if and only if p contains none of '%', '_' and the backslash. */
  lemma LikeIsPrefixIff(p: string)
    ensures (forall s: string :: InSubtree(s, p) <==> p + "/" <= s) <==> NoWildcards(p)
  {
    if NoWildcards(p) {
      forall s: string ensures InSubtree(s, p) <==> p + "/" <= s { LikeIsPrefix(p, s); }
    } else {
      var s := WildcardMisleads(p);
    }
  }

  // ---------- String.prototype.replace with a string pattern ----------

  /** First index of `pat` in `s`, or -1. */
  function IndexOf(s: string, pat: string): (i: int)
    ensures -1 <= i && (i >= 0 ==> i + |pat| <= |s|)
  {
    if pat <= s then 0
    else if s == "" then -1
    else var i := IndexOf(s[1..], pat); if i < 0 then -1 else i + 1
  }

  /** It is the first: no earlier position starts an occurrence, and -1 means there is none. */
  lemma {:induction false} IndexOfIsFirst(s: string, pat: string)
    ensures var i := IndexOf(s, pat);
            && (i >= 0 ==> pat <= s[i..])
            && forall j :: 0 <= j < (if i >= 0 then i else |s| + 1) ==> !(pat <= s[j..])
  {
    assert s[0..] == s;
    if !(pat <= s) {
      if s != "" {
        IndexOfIsFirst(s[1..], pat);
        assert forall j :: 1 <= j <= |s| ==> s[j..] == s[1..][j - 1..];
      }
    }
  }

  predicate Special(c: char) {
    c == '$' || c == '&' || c == '`' || c == '\''
  }

  /** What the template '$' followed by c stands for. */
  function Piece(c: char, matched: string, before: string, after: string): string
    requires Special(c)
  {
    match c
    case '$' => "$"
    case '&' => matched
    case '`' => before
    case _ => after
  }

  /** The replacement template, expanded (GetSubstitution of ECMA-262 with no captures). */
  function Expand(r: string, matched: string, before: string, after: string): string {
    if r == "" then ""
    else if r[0] == '$' && |r| >= 2 && Special(r[1]) then
      Piece(r[1], matched, before, after) + Expand(r[2..], matched, before, after)
    else [r[0]] + Expand(r[1..], matched, before, after)
  }

  function Replace(s: string, pat: string, r: string): string {
    var i := IndexOf(s, pat);
    if i < 0 then s
    else s[..i] + Expand(r, pat, s[..i], s[i + |pat|..]) + s[i + |pat|..]
  }

  /** The four templates at work: a dollar sign, the match, the text before it and the text after it. */
  lemma TemplatesMean()
    ensures Replace("xmy", "m", "$$") == "x$y" && Replace("xmy", "m", "$&") == "xmy"
    ensures Replace("xmy", "m", "$`") == "xxy" && Replace("xmy", "m", "$'") == "xyy"
  {
    assert "xmy"[0] == 'x' && "xmy"[1..] == "my" && IndexOf("my", "m") == 0 && IndexOf("xmy", "m") == 1;
    assert "xmy"[..1] == "x" && "xmy"[2..] == "y";
    OneTemplate('$');
    OneTemplate('&');
    OneTemplate('`');
    OneTemplate('\'');
  }

  lemma OneTemplate(c: char)
    requires Special(c)
    ensures forall m, b, a :: Expand(['$', c], m, b, a) == Piece(c, m, b, a)
  {
    assert ['$', c][2..] == "";
  }

  /** No "$$", "$&", "$`" or "$'" in the string. */
  predicate NoTemplate(r: string) {
    forall i :: 0 <= i < |r| - 1 && r[i] == '$' ==> !Special(r[i + 1])
  }

  lemma {:induction false} NoTemplateExpands(r: string, m: string, b: string, a: string)
    requires NoTemplate(r)
    ensures Expand(r, m, b, a) == r
  {
    if r != "" { NoTemplateExpands(r[1..], m, b, a); }
  }

  lemma NoTemplateCons(r: string)
    requires r != "" && !(r[0] == '$' && |r| >= 2 && Special(r[1]))
    requires NoTemplate(r[1..])
    ensures NoTemplate(r)
  {
    assert forall k :: 0 < k < |r| ==> r[k] == r[1..][k - 1];
  }

  /** A piece long enough to cover its own template, after some w, would contain that template. */
  lemma PieceIsShort(c: char, m: string, b: string, a: string, w: string, rest: string, tail: string)
    requires Special(c) && NoTemplate(m) && NoTemplate(b) && NoTemplate(a)
    requires Piece(c, m, b, a) + tail == w + ['$', c] + rest
    ensures |Piece(c, m, b, a)| < |w| + 2
    ensures tail == (w + ['$', c])[|Piece(c, m, b, a)|..] + rest
  {
    var x := Piece(c, m, b, a);
    var whole := w + ['$', c] + rest;
    assert whole[|w|] == '$' && whole[|w| + 1] == c;
    assert forall k :: 0 <= k < |x| ==> x[k] == whole[k];
    assert NoTemplate(x);
    assert tail == whole[|x|..];
  }

  /** Expansion never runs ahead of its template text by a fixed lag. */
  lemma {:induction false} NoLag(r: string, m: string, b: string, a: string, w: string)
    requires NoTemplate(m) && NoTemplate(b) && NoTemplate(a) && w != ""
    ensures Expand(r, m, b, a) != w + r
    decreases |r|
  {
    if r != "" && Expand(r, m, b, a) == w + r {
      if r[0] == '$' && |r| >= 2 && Special(r[1]) {
        var rest := Expand(r[2..], m, b, a);
        assert w + r == w + ['$', r[1]] + r[2..];
        PieceIsShort(r[1], m, b, a, w, r[2..], rest);
        NoLag(r[2..], m, b, a, (w + ['$', r[1]])[|Piece(r[1], m, b, a)|..]);
      } else {
        var rest := Expand(r[1..], m, b, a);
        assert rest == ([r[0]] + rest)[1..] == (w + r)[1..] == w[1..] + [r[0]] + r[1..];
        NoLag(r[1..], m, b, a, w[1..] + [r[0]]);
      }
    }
  }

  /** Expanding a string that holds a template always changes it. */
  lemma {:induction false} TemplateChanges(r: string, m: string, b: string, a: string)
    requires NoTemplate(m) && NoTemplate(b) && NoTemplate(a) && !NoTemplate(r)
    ensures Expand(r, m, b, a) != r
    decreases |r|
  {
    if r[0] == '$' && |r| >= 2 && Special(r[1]) {
      if Expand(r, m, b, a) == r {
        var rest := Expand(r[2..], m, b, a);
        assert r == "" + ['$', r[1]] + r[2..];
        PieceIsShort(r[1], m, b, a, "", r[2..], rest);
        NoLag(r[2..], m, b, a, ("" + ['$', r[1]])[|Piece(r[1], m, b, a)|..]);
      }
    } else {
      if NoTemplate(r[1..]) { NoTemplateCons(r); }
      TemplateChanges(r[1..], m, b, a);
      assert ([r[0]] + Expand(r[1..], m, b, a))[1..] == Expand(r[1..], m, b, a);
    }
  }

  lemma ReplacePrefix(s: string, old': string, r: string)
    requires old' <= s && NoTemplate(r)
    ensures Replace(s, old', r) == r + s[|old'|..]
  {
    NoTemplateExpands(r, old', s[..0], s[|old'|..]);
    assert s[..0] + r == r;
  }

  /** Exactly when `path.replace(oldPath, newPath)` is a prefix swap on every path below an oldPath
      without templates: if and only if newPath contains none. */
  lemma ReplaceIsPrefixSwapIff(old': string, r: string)
    requires NoTemplate(old')
    ensures (forall s: string :: old' + "/" <= s ==> Replace(s, old', r) == r + s[|old'|..])
            <==> NoTemplate(r)
  {
    if NoTemplate(r) {
      forall s: string | old' + "/" <= s ensures Replace(s, old', r) == r + s[|old'|..] {
        assert old' <= old' + "/" <= s;
        ReplacePrefix(s, old', r);
      }
    } else {
      var s := old' + "/";
      assert s[|old'|..] == "/" && old' <= s && IndexOf(s, old') == 0;
      assert s[..0] == "";
      TemplateChanges(r, old', "", "/");
      SuffixCancels(Expand(r, old', "", "/"), r, "/");
      assert Replace(s, old', r) == Expand(r, old', "", "/") + "/";
      assert Replace(s, old', r) != r + s[|old'|..];
    }
  }

  lemma SuffixCancels(a: string, b: string, c: string)
    ensures a + c == b + c ==> a == b
  {
    assert (a + c)[..|a|] == a && (b + c)[..|b|] == b;
  }

  /** With a template in the old path, two of them can cancel out: "$$&" replaced by "$$$&" is "$$$&". */
  lemma TemplatesCanCancel()
    ensures !NoTemplate("$$$&") && Expand("$$$&", "$$&", "", "/") == "$$$&"
  {
    assert "$$$&"[0] == '$' && Special("$$$&"[1]);
    assert "$$$&"[2..] == "$&" && "$&"[2..] == "";
    assert Expand("$&", "$$&", "", "/") == "$$&" + "";
  }

  // ---------- Splitting and joining paths ----------

  function Join(ns: seq<string>): string
    requires |ns| > 0
  {
    if |ns| == 1 then ns[0] else Join(ns[..|ns| - 1]) + "/" + ns[|ns| - 1]
  }

  /** Index of the last '/', or -1. */
  function LastSlash(p: string): (i: int)
    ensures -1 <= i < |p|
    ensures i >= 0 ==> p[i] == '/'
    ensures '/' !in p[i + 1..]
  {
    if p == "" then -1
    else if p[|p| - 1] == '/' then |p| - 1
    else LastSlash(p[..|p| - 1])
  }

  function Split(p: string): (ns: seq<string>)
    ensures |ns| > 0
    decreases |p|
  {
    var i := LastSlash(p);
    if i < 0 then [p] else Split(p[..i]) + [p[i + 1..]]
  }

  lemma JoinSnoc(ns: seq<string>, n: string)
    requires |ns| > 0
    ensures Join(ns + [n]) == Join(ns) + "/" + n
  {
    assert (ns + [n])[..|ns|] == ns;
  }

  lemma CutAtSlash(p: string, i: nat)
    requires i < |p| && p[i] == '/'
    ensures p[..i] + "/" + p[i + 1..] == p
  {
  }

  lemma {:induction false} JoinSplit(p: string)
    ensures Join(Split(p)) == p
    decreases |p|
  {
    var i := LastSlash(p);
    if i < 0 {
      assert Split(p) == [p];
    } else {
      var q, n := p[..i], p[i + 1..];
      var ns := Split(q);
      JoinSplit(q);
      assert Split(p) == ns + [n];
      JoinSnoc(ns, n);
      CutAtSlash(p, i);
    }
  }

  /** A slash-free last segment is cut off exactly where it was joined. */
  lemma LastCut(a: string, n: string, b: string, m: string)
    requires '/' !in n && '/' !in m
    requires a + "/" + n == b + "/" + m
    ensures a == b && n == m
  {
    var s := a + "/" + n;
    assert s[|a|] == '/' && s[|b|] == '/';
    assert forall k :: |a| < k < |s| ==> s[k] == n[k - |a| - 1];
    assert forall k :: |b| < k < |s| ==> s[k] == m[k - |b| - 1];
    assert a == s[..|a|] && b == s[..|b|];
    assert n == s[|a| + 1..] && m == s[|b| + 1..];
  }

  /** A prefix ending in '/' of a path with a slash-free last segment lies within its parent path. */
  lemma PrefixOfChild(q: string, up: string, n: string)
    requires '/' !in n && q + "/" <= up + "/" + n
    ensures q == up || q + "/" <= up
  {
    var s := up + "/" + n;
    assert s[|q|] == '/';
    assert forall k :: |up| < k < |s| ==> s[k] == n[k - |up| - 1];
    assert s[..|up|] == up && s[..|q|] == q && s[..|q| + 1] == q + "/";
  }

  lemma LastSlashIs(p: string, k: nat)
    requires k < |p| && p[k] == '/' && forall j :: k < j < |p| ==> p[j] != '/'
    ensures LastSlash(p) == k
  {
    var i := LastSlash(p);
    assert forall j :: i < j < |p| ==> p[j] == p[i + 1..][j - i - 1];
  }

  lemma ChildSlices(q: string, n: string)
    requires '/' !in n
    ensures var p := q + "/" + n; p[..|q|] == q && p[|q| + 1..] == n && LastSlash(p) == |q|
  {
    LastSlashIs(q + "/" + n, |q|);
  }

  lemma SplitSnoc(q: string, n: string)
    requires '/' !in n
    ensures Split(q + "/" + n) == Split(q) + [n]
  {
    ChildSlices(q, n);
  }

  lemma SplitFlat(n: string)
    requires '/' !in n
    ensures Split(n) == [n]
  {
    assert LastSlash(n) < 0;
  }

  // ---------- Bytewise string order ----------

  /** `a <= b` in the order the database sorts and compares text columns (bytewise). */
  predicate Leq(a: string, b: string) {
    a == "" || (b != "" && (a[0] < b[0] || (a[0] == b[0] && Leq(a[1..], b[1..]))))
  }

  lemma {:induction false} LeqTotal(a: string, b: string)
    ensures Leq(a, b) || Leq(b, a)
  {
    if a != "" && b != "" { LeqTotal(a[1..], b[1..]); }
  }

  lemma {:induction false} LeqTransitive(a: string, b: string, c: string)
    requires Leq(a, b) && Leq(b, c)
    ensures Leq(a, c)
  {
    if a != "" && a[0] == b[0] && b[0] == c[0] { LeqTransitive(a[1..], b[1..], c[1..]); }
  }

  lemma {:induction false} LeqAntisymmetric(a: string, b: string)
    requires Leq(a, b) && Leq(b, a)
    ensures a == b
  {
    if a != "" {
      LeqAntisymmetric(a[1..], b[1..]);
      assert a == [a[0]] + a[1..] && b == [b[0]] + b[1..];
    }
  }

  /** A common prefix does not affect the order. */
  lemma {:induction false} LeqCommonPrefix(p: string, a: string, b: string)
    ensures Leq(p + a, p + b) <==> Leq(a, b)
  {
    if p == "" {
      assert p + a == a && p + b == b;
    } else {
      assert (p + a)[1..] == p[1..] + a && (p + b)[1..] == p[1..] + b;
      LeqCommonPrefix(p[1..], a, b);
    }
  }

  /** Whatever lies between two strings with a common prefix has that prefix. */
  lemma {:induction false} BetweenSharesPrefix(p: string, lo: string, s: string, hi: string)
    requires Leq(p + lo, s) && Leq(s, p + hi)
    ensures p <= s
  {
    if p != "" {
      assert (p + lo)[1..] == p[1..] + lo && (p + hi)[1..] == p[1..] + hi;
      BetweenSharesPrefix(p[1..], lo, s[1..], hi);
      assert p == [p[0]] + p[1..] && s == [s[0]] + s[1..];
    }
  }
}
