/** The string operations the style checker uses: trimming, tab expansion, searching, replacing, and splitting a
    file into lines. */
module Text {
  import opened Common

  /** Characters that str.isspace accepts. */
  predicate IsSpace(c: char)
  {
    || '\U{0009}' <= c <= '\U{000d}' || '\U{001c}' <= c <= '\U{0020}' || c == '\U{0085}' || c == '\U{00a0}'
    || c == '\U{1680}' || '\U{2000}' <= c <= '\U{200a}' || c == '\U{2028}' || c == '\U{2029}'
    || c == '\U{202f}' || c == '\U{205f}' || c == '\U{3000}'
  }

  ghost predicate All(s: string, p: char -> bool) { forall c :: c in s ==> p(c) }

  // ---------- trimming ----------

  function TrimLeft(s: string, p: char -> bool): (r: string)
    ensures |r| <= |s| && r == s[|s| - |r|..] && All(s[..|s| - |r|], p)
    ensures r == "" || !p(r[0])
  {
    if s != "" && p(s[0]) then
      var r := TrimLeft(s[1..], p);
      assert s[..|s| - |r|] == [s[0]] + s[1..][..|s| - 1 - |r|];
      r
    else s
  }

  function TrimRight(s: string, p: char -> bool): (r: string)
    ensures |r| <= |s| && r == s[..|r|] && All(s[|r|..], p)
    ensures r == "" || !p(r[|r| - 1])
  {
    if s != "" && p(s[|s| - 1]) then
      var r := TrimRight(s[..|s| - 1], p);
      assert s[|r|..] == s[..|s| - 1][|r|..] + [s[|s| - 1]];
      r
    else s
  }

  function Trim(s: string, p: char -> bool): string { TrimLeft(TrimRight(s, p), p) }

  function Strip(s: string): string { Trim(s, IsSpace) }

  /** The kernel of a trimmed string: nothing to trim at either end. */
  ghost predicate Tight(s: string, p: char -> bool)
  {
    s == "" || (!p(s[0]) && !p(s[|s| - 1]))
  }

  /** What trimming cuts off. */
  lemma TrimSplits(s: string, p: char -> bool) returns (pre: string, post: string)
    ensures s == pre + Trim(s, p) + post
    ensures All(pre, p) && All(post, p) && Tight(Trim(s, p), p)
  {
    hide TrimLeft, TrimRight;
    var r := TrimRight(s, p);
    var t := TrimLeft(r, p);
    pre, post := r[..|r| - |t|], s[|r|..];
    assert r == pre + t && s == r + post;
  }

  lemma {:induction false} TrimLeftIs(pre: string, t: string, p: char -> bool)
    requires All(pre, p) && (t == "" || !p(t[0]))
    ensures TrimLeft(pre + t, p) == t
  {
    if pre != "" {
      assert p(pre[0]) && (pre + t)[1..] == pre[1..] + t;
      forall c | c in pre[1..] ensures p(c) { assert c in pre; }
      TrimLeftIs(pre[1..], t, p);
    } else {
      assert pre + t == t;
    }
  }

  lemma {:induction false} TrimRightIs(t: string, post: string, p: char -> bool)
    requires All(post, p) && (t == "" || !p(t[|t| - 1]))
    ensures TrimRight(t + post, p) == t
  {
    if post != "" {
      var n := |post| - 1;
      assert p(post[n]) && (t + post)[..|t| + n] == t + post[..n];
      forall c | c in post[..n] ensures p(c) { assert c in post; }
      TrimRightIs(t, post[..n], p);
    } else {
      assert t + post == t;
    }
  }

  /** Trimming is determined by any such split. */
  lemma TrimIs(pre: string, core: string, post: string, p: char -> bool)
    requires All(pre, p) && All(post, p) && Tight(core, p) && core != ""
    ensures Trim(pre + core + post, p) == core
  {
    TrimRightIs(pre + core, post, p);
    TrimLeftIs(pre, core, p);
  }

  lemma RightTrimKeepsStrip(s: string)
    ensures Strip(TrimRight(s, IsSpace) + "\n") == Strip(s)
  {
    TrimRightIs(TrimRight(s, IsSpace), "\n", IsSpace);
  }

  // ---------- searching and replacing ----------

  predicate StartsWith(s: string, pat: string) { |pat| <= |s| && s[..|pat|] == pat }

  predicate Contains(s: string, pat: string)
  {
    StartsWith(s, pat) || (s != "" && Contains(s[1..], pat))
  }

  lemma {:induction false} ContainsAt(s: string, pat: string, i: nat)
    requires i + |pat| <= |s| && s[i..i + |pat|] == pat
    ensures Contains(s, pat)
  {
    if i > 0 {
      assert s[1..][i - 1..i - 1 + |pat|] == pat;
      ContainsAt(s[1..], pat, i - 1);
    }
  }

  lemma {:induction false} WhereContained(s: string, pat: string) returns (i: nat)
    requires Contains(s, pat)
    ensures i + |pat| <= |s| && s[i..i + |pat|] == pat
  {
    if StartsWith(s, pat) {
      i := 0;
    } else {
      var k := WhereContained(s[1..], pat);
      i := k + 1;
      assert s[1..][k..k + |pat|] == s[i..i + |pat|];
    }
  }

  ghost predicate OccursAt(s: string, pat: string, i: nat) { i + |pat| <= |s| && s[i..i + |pat|] == pat }

  /** Containing a pattern means that it occurs somewhere. */
  lemma ContainsIff(s: string, pat: string)
    ensures Contains(s, pat) <==> exists i: nat :: OccursAt(s, pat, i)
  {
    if Contains(s, pat) {
      var i := WhereContained(s, pat);
      assert OccursAt(s, pat, i);
    }
    if i: nat :| OccursAt(s, pat, i) {
      ContainsAt(s, pat, i);
    }
  }

  /** Text without trimmable characters lies inside the kernel. */
  lemma InsideKernel(pre: string, t: string, post: string, p: char -> bool, i: nat, n: nat)
    requires All(pre, p) && All(post, p) && 0 < n && i + n <= |pre + t + post|
    requires !p((pre + t + post)[i]) && !p((pre + t + post)[i + n - 1])
    ensures |pre| <= i && i + n <= |pre| + |t|
  {
    var s := pre + t + post;
    assert forall k :: 0 <= k < |pre| ==> s[k] == pre[k] && pre[k] in pre;
    assert forall k :: |pre| + |t| <= k < |s| ==> s[k] == post[k - |pre| - |t|] && post[k - |pre| - |t|] in post;
  }

  /** A pattern with no blank is found in the stripped text exactly when it is found in the text. */
  lemma ContainsStripped(s: string, pat: string)
    requires pat != "" && forall c :: c in pat ==> !IsSpace(c)
    ensures Contains(Strip(s), pat) <==> Contains(s, pat)
  {
    hide IsSpace, Trim, Contains, All;
    var pre, post := TrimSplits(s, IsSpace);
    var t := Strip(s);
    if Contains(t, pat) {
      var i := WhereContained(t, pat);
      assert s[|pre| + i..|pre| + i + |pat|] == t[i..i + |pat|];
      ContainsAt(s, pat, |pre| + i);
    }
    if Contains(s, pat) {
      var i := WhereContained(s, pat);
      assert s[i] == pat[0] && s[i + |pat| - 1] == pat[|pat| - 1];
      InsideKernel(pre, t, post, IsSpace, i, |pat|);
      assert t[i - |pre|..i - |pre| + |pat|] == s[i..i + |pat|];
      ContainsAt(t, pat, i - |pre|);
    }
  }

  /** Replacing every occurrence, from left to right. */
  function Replace(s: string, pat: string, with: string): string
    requires pat != ""
  {
    if s == "" then ""
    else if StartsWith(s, pat) then with + Replace(s[|pat|..], pat, with)
    else [s[0]] + Replace(s[1..], pat, with)
  }

  lemma FirstDiffers(s: string, pat: string)
    requires s != "" && pat != "" && s[0] != pat[0]
    ensures !StartsWith(s, pat)
  {
    assert |pat| <= |s| ==> s[..|pat|][0] == s[0];
  }

  lemma {:induction false} ReplaceNone(s: string, pat: string, with: string)
    requires pat != "" && pat[0] !in s
    ensures Replace(s, pat, with) == s
  {
    if s != "" {
      assert s[0] in s;
      FirstDiffers(s, pat);
      ReplaceNone(s[1..], pat, with);
    }
  }

  lemma {:induction false} ReplaceOnly(pre: string, pat: string, post: string, with: string)
    requires pat != "" && pat[0] !in pre && pat[0] !in post
    ensures Replace(pre + pat + post, pat, with) == pre + with + post
  {
    var s := pre + pat + post;
    if pre == "" {
      assert StartsWith(s, pat) && s[|pat|..] == post;
      ReplaceNone(post, pat, with);
    } else {
      assert s[0] == pre[0] && pre[0] in pre;
      FirstDiffers(s, pat);
      assert s[1..] == pre[1..] + pat + post;
      ReplaceOnly(pre[1..], pat, post, with);
    }
  }

  // ---------- tab expansion ----------

  const TAB_SIZE := 4

  function Blanks(n: nat): (s: string)
    ensures |s| == n && forall c :: c in s ==> c == ' '
  {
    if n == 0 then "" else " " + Blanks(n - 1)
  }

  /** Column after a character. */
  function Column(col: nat, c: char): nat
  {
    if c == '\t' then col + TAB_SIZE - col % TAB_SIZE else if c == '\n' || c == '\r' then 0 else col + 1
  }

  /** What a character expands to at a column. */
  function Expansion(col: nat, c: char): string
  {
    if c == '\t' then Blanks(TAB_SIZE - col % TAB_SIZE) else [c]
  }

  function ExpandTabs(s: string, col: nat): string
  {
    if s == "" then "" else Expansion(col, s[0]) + ExpandTabs(s[1..], Column(col, s[0]))
  }

  function ColumnAfter(s: string, col: nat): nat
  {
    if s == "" then col else ColumnAfter(s[1..], Column(col, s[0]))
  }

  lemma {:induction false} ExpandConcat(a: string, b: string, col: nat)
    ensures ExpandTabs(a + b, col) == ExpandTabs(a, col) + ExpandTabs(b, ColumnAfter(a, col))
  {
    if a == "" {
      assert a + b == b;
    } else {
      assert (a + b)[1..] == a[1..] + b;
      ExpandConcat(a[1..], b, Column(col, a[0]));
    }
  }

  lemma {:induction false} ExpandNoTab(s: string, col: nat)
    requires '\t' !in s
    ensures ExpandTabs(s, col) == s
  {
    if s != "" {
      assert s[0] in s;
      ExpandNoTab(s[1..], Column(col, s[0]));
      assert s == [s[0]] + s[1..];
    }
  }

  /** A tab reaches to the next multiple of four columns: what stands before it in the line stays, blanks take its
      place, and the rest of the line goes on from there. */
  lemma TabStop(a: string, b: string)
    requires '\t' !in a && '\n' !in a && '\r' !in a
    ensures var n := 4 - |a| % 4; ExpandTabs(a + "\t" + b, 0) == a + Blanks(n) + ExpandTabs(b, |a| + n)
  {
    assert a + "\t" + b == a + ("\t" + b);
    ExpandConcat(a, "\t" + b, 0);
    ExpandNoTab(a, 0);
    PlainColumn(a, 0);
    assert ("\t" + b)[0] == '\t' && ("\t" + b)[1..] == b;
    assert ExpandTabs("\t" + b, |a|) == Expansion(|a|, '\t') + ExpandTabs(b, Column(|a|, '\t'));
    hide ExpandTabs, Blanks, ColumnAfter;
    assert a + (Blanks(4 - |a| % 4) + ExpandTabs(b, |a| + (4 - |a| % 4)))
        == a + Blanks(4 - |a| % 4) + ExpandTabs(b, |a| + (4 - |a| % 4));
  }

  lemma {:induction false} PlainColumn(s: string, col: nat)
    requires '\t' !in s && '\n' !in s && '\r' !in s
    ensures ColumnAfter(s, col) == col + |s|
  {
    if s != "" {
      assert s[0] in s;
      PlainColumn(s[1..], Column(col, s[0]));
    }
  }

  /** Expansion brings in blanks and takes out tabs, and nothing else. */
  lemma {:induction false} ExpandedChars(s: string, col: nat)
    ensures forall c :: c in ExpandTabs(s, col) ==> c != '\t' && (c in s || c == ' ')
    ensures s != "" ==> ExpandTabs(s, col) != ""
    ensures All(s, IsSpace) ==> All(ExpandTabs(s, col), IsSpace)
  {
    if s != "" {
      ExpandedChars(s[1..], Column(col, s[0]));
      assert s == [s[0]] + s[1..];
    }
  }

  /** Tabs around a text without tabs do not matter to stripping. */
  lemma ExpandKeepsStrip(s: string)
    requires '\t' !in Strip(s) && Strip(s) != ""
    ensures Strip(ExpandTabs(s, 0)) == Strip(s)
  {
    hide IsSpace, Trim, ExpandTabs;
    var pre, post := TrimSplits(s, IsSpace);
    var core := Strip(s);
    assert s == pre + (core + post);
    ExpandConcat(pre, core + post, 0);
    ExpandConcat(core, post, ColumnAfter(pre, 0));
    ExpandNoTab(core, ColumnAfter(pre, 0));
    var pre', post' := ExpandTabs(pre, 0), ExpandTabs(post, ColumnAfter(core, ColumnAfter(pre, 0)));
    ExpandedChars(pre, 0);
    ExpandedChars(post, ColumnAfter(core, ColumnAfter(pre, 0)));
    assert ExpandTabs(s, 0) == pre' + core + post';
    TrimIs(pre', core, post', IsSpace);
  }

  lemma ExpansionBlank(s: string, col: nat)
    requires s != ""
    ensures s[0] == '\t' ==> forall k :: 0 <= k < |Expansion(col, s[0])| ==> ExpandTabs(s, col)[k] == ' '
  {
    var block := Expansion(col, s[0]);
    assert s[0] == '\t' ==> forall k :: 0 <= k < |block| ==> block[k] in block;
  }

  lemma {:induction false} ExpandedPrefix(s: string, col: nat, pat: string)
    requires ' ' !in pat && StartsWith(ExpandTabs(s, col), pat)
    ensures StartsWith(s, pat)
  {
    if pat != "" {
      var e := ExpandTabs(s, col);
      assert e[0] == e[..|pat|][0] == pat[0] && pat[0] in pat;
      ExpansionBlank(s, col);
      assert s[0] != '\t';
      var rest := ExpandTabs(s[1..], Column(col, s[0]));
      assert e == [s[0]] + rest && rest == e[1..];
      assert e[1..][..|pat| - 1] == e[..|pat|][1..];
      ExpandedPrefix(s[1..], Column(col, s[0]), pat[1..]);
      assert s[..|pat|] == [s[0]] + s[1..][..|pat| - 1] == [pat[0]] + pat[1..] == pat;
    }
  }

  lemma ContainsLater(s: string, pat: string)
    requires s != "" && Contains(s[1..], pat)
    ensures Contains(s, pat)
  {
  }

  /** Expansion, one character on. */
  lemma ExpandStep(s: string, col: nat)
    requires s != ""
    ensures ExpandTabs(s, col) == Expansion(col, s[0]) + ExpandTabs(s[1..], Column(col, s[0]))
  {
  }

  lemma NothingExpanded(col: nat)
    ensures ExpandTabs("", col) == ""
  {
  }

  lemma SliceBehind(block: string, rest: string, i: nat, n: nat)
    requires |block| <= i && i + n <= |block + rest|
    ensures (block + rest)[i..i + n] == rest[i - |block|..i - |block| + n]
  {
  }

  /** An occurrence that starts inside the expansion of the first character starts with that character. */
  lemma StartsInBlock(s: string, col: nat, pat: string, i: nat)
    requires s != "" && pat != "" && ' ' !in pat && i < |Expansion(col, s[0])|
    requires i + |pat| <= |ExpandTabs(s, col)| && ExpandTabs(s, col)[i..i + |pat|] == pat
    ensures i == 0
  {
    var e := ExpandTabs(s, col);
    assert e[i] == e[i..i + |pat|][0] == pat[0] && pat[0] in pat;
    ExpansionBlank(s, col);
  }

  /** Expansion never creates an occurrence of a pattern that has no blank. */
  lemma {:induction false} ExpandedContains(s: string, col: nat, pat: string, i: nat)
    requires pat != "" && ' ' !in pat
    requires i + |pat| <= |ExpandTabs(s, col)| && ExpandTabs(s, col)[i..i + |pat|] == pat
    ensures Contains(s, pat)
    decreases s
  {
    hide *;
    if s == "" {
      NothingExpanded(col);
      assert false;
    } else {
      var block, rest := Expansion(col, s[0]), ExpandTabs(s[1..], Column(col, s[0]));
      ExpandStep(s, col);
      if i < |block| {
        StartsInBlock(s, col, pat, i);
        PrefixIsContained(s, col, pat);
      } else {
        SliceBehind(block, rest, i, |pat|);
        ExpandedContains(s[1..], Column(col, s[0]), pat, i - |block|);
        ContainsLater(s, pat);
      }
    }
  }

  lemma PrefixIsContained(s: string, col: nat, pat: string)
    requires ' ' !in pat && |pat| <= |ExpandTabs(s, col)| && ExpandTabs(s, col)[0..|pat|] == pat
    ensures Contains(s, pat)
  {
    ExpandedPrefix(s, col, pat);
  }

  // ---------- lines ----------

  /** A line of a file: a newline can only be its last character. */
  predicate IsLine(s: string) { s != "" && '\n' !in s[..|s| - 1] }

  predicate Ended(s: string) { s != "" && s[|s| - 1] == '\n' }

  /** Lines as a file has them: only the last one may lack its newline. */
  ghost predicate FileLines(ls: seq<string>)
  {
    && (forall i :: 0 <= i < |ls| ==> IsLine(ls[i]))
    && (forall i :: 0 <= i < |ls| - 1 ==> Ended(ls[i]))
  }

  /** Length of the first line. */
  function LineEnd(s: string): (k: nat)
    requires s != ""
    ensures 0 < k <= |s| && IsLine(s[..k]) && (k < |s| ==> Ended(s[..k]))
  {
    if s[0] == '\n' || |s| == 1 then 1
    else
      var k := LineEnd(s[1..]);
      assert s[..k + 1][..k] == [s[0]] + s[1..][..k][..k - 1];
      assert s[..k + 1][k] == s[1..][..k][k - 1];
      k + 1
  }

  function ReadLines(s: string): seq<string>
  {
    if s == "" then [] else [s[..LineEnd(s)]] + ReadLines(s[LineEnd(s)..])
  }

  /** Splitting gives lines, and joining them gives the file back. */
  lemma {:induction false} ReadLinesJoin(s: string)
    ensures FileLines(ReadLines(s)) && Concat(ReadLines(s)) == s
  {
    if s != "" {
      var k := LineEnd(s);
      var rest := ReadLines(s[k..]);
      ReadLinesJoin(s[k..]);
      assert k == |s| ==> rest == [];
      assert ReadLines(s) == [s[..k]] + rest && Concat(ReadLines(s)) == s[..k] + s[k..] by {
        assert ([s[..k]] + rest)[1..] == rest;
      }
      hide ReadLines, Concat, LineEnd, IsLine, Ended;
      FileLinesCons(s[..k], rest);
      assert s == s[..k] + s[k..];
    }
  }

  lemma FileLinesCons(line: string, rest: seq<string>)
    requires IsLine(line) && FileLines(rest) && (rest != [] ==> Ended(line))
    ensures FileLines([line] + rest)
  {
    hide IsLine, Ended;
  }

  lemma {:induction false} LineEndIs(line: string, rest: string)
    requires IsLine(line) && (Ended(line) || rest == "")
    ensures LineEnd(line + rest) == |line|
  {
    var s := line + rest;
    assert |line| > 1 ==> line[0] in line[..|line| - 1];
    if |line| > 1 {
      assert s[1..] == line[1..] + rest;
      assert line[1..][..|line| - 2] == line[..|line| - 1][1..];
      LineEndIs(line[1..], rest);
    }
  }

  /** Joining lines and splitting again gives the same lines. */
  lemma {:induction false} ReadLinesOfConcat(ls: seq<string>)
    requires FileLines(ls)
    ensures ReadLines(Concat(ls)) == ls
  {
    if ls != [] {
      var s := Concat(ls);
      ReadLinesOfConcat(ls[1..]);
      if |ls| == 1 { assert ls[1..] == []; }
      assert s == ls[0] + Concat(ls[1..]) && s != "";
      LineEndIs(ls[0], Concat(ls[1..]));
      assert ReadLines(s) == [s[..LineEnd(s)]] + ReadLines(s[LineEnd(s)..]);
      hide ReadLines, Concat, LineEnd, IsLine, Ended;
      assert s[|ls[0]|..] == Concat(ls[1..]) && s[..|ls[0]|] == ls[0];
    }
  }

  lemma {:induction false} ConcatSnoc(ls: seq<string>, s: string)
    ensures Concat(ls + [s]) == Concat(ls) + s
  {
    if ls == [] {
      assert ls + [s] == [s] && [s][1..] == [];
    } else {
      assert (ls + [s])[1..] == ls[1..] + [s];
      ConcatSnoc(ls[1..], s);
    }
  }
}
