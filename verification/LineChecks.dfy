/** The line checks of the style checker, and what fixing with them guarantees for whole files. */
module LineChecks {
  import opened Common
  import opened StyleFixer
  import opened Text

  // ---------- tabs ----------

  predicate NoTab(line: string) { '\t' !in line }

  function Untabbed(line: string): string { ExpandTabs(line, 0) }

  const TABS := Checker(NoTab, Untabbed)

  lemma UntabbedShape(line: string)
    requires IsLine(line)
    ensures IsLine(Untabbed(line)) && NoTab(Untabbed(line)) && (Ended(line) ==> Ended(Untabbed(line)))
  {
    var n := |line| - 1;
    ExpandedChars(line, 0);
    if Ended(line) {
      assert line == line[..n] + "\n";
      ExpandConcat(line[..n], "\n", 0);
      ExpandNoTab("\n", ColumnAfter(line[..n], 0));
      ExpandedChars(line[..n], 0);
      assert Untabbed(line) == ExpandTabs(line[..n], 0) + "\n";
    } else {
      assert line == line[..n] + [line[n]];
      assert '\n' !in line && '\n' !in Untabbed(line);
    }
  }

  lemma GuardHasNoTab(line: string)
    requires IsOff(line)
    ensures '\t' !in Strip(line) && Strip(line) != ""
  {
    hide Trim;
  }

  lemma TabsSound()
    ensures Sound(TABS, true)
  {
    hide IsOff, IsOn;
    forall x | IsLine(x) && !TABS.complies(x)
      ensures IsLine(TABS.fix(x)) && TABS.complies(TABS.fix(x)) && (Ended(x) ==> Ended(TABS.fix(x)))
    {
      UntabbedShape(x);
    }
    forall x | IsLine(x) && IsOff(x) ensures IsOff(Untabbed(x)) {
      OffSurvivesTabs(x);
    }
  }

  lemma OffSurvivesTabs(x: string)
    requires IsOff(x)
    ensures IsOff(Untabbed(x))
  {
    GuardHasNoTab(x);
    ExpandKeepsStrip(x);
    hide Trim;
  }

  // ---------- trailing whitespace ----------

  function Trimmed(line: string): string { TrimRight(line, IsSpace) + "\n" }

  predicate NoTrailingSpace(line: string) { Trimmed(line) == line }

  const WHITESPACE := Checker(NoTrailingSpace, Trimmed)

  lemma TrimmedShape(line: string)
    requires IsLine(line)
    ensures IsLine(Trimmed(line)) && Ended(Trimmed(line)) && NoTrailingSpace(Trimmed(line))
    ensures Strip(Trimmed(line)) == Strip(line)
  {
    var r := TrimRight(line, IsSpace);
    TrimRightIs(r, "\n", IsSpace);
    RightTrimKeepsStrip(line);
    hide Trim, TrimRight;
    TrimmedHasNoNewline(line, r);
    assert Trimmed(line)[..|r|] == r;
  }

  lemma TrimmedHasNoNewline(line: string, r: string)
    requires IsLine(line) && r <= line && (r == "" || r[|r| - 1] != '\n')
    ensures '\n' !in r
  {
    if r != "" {
      assert r[..|r| - 1] <= line[..|line| - 1];
      assert r == r[..|r| - 1] + [r[|r| - 1]];
    }
  }

  /** The whitespace check accepts just the lines that end in a newline with no blank before it; the fix cuts off all
      blanks at the end and puts a newline there. */
  lemma WhitespaceIff(line: string)
    requires IsLine(line)
    ensures WHITESPACE.complies(line) <==> Ended(line) && (|line| == 1 || !IsSpace(line[|line| - 2]))
    ensures exists n: nat :: && n <= |line| && WHITESPACE.fix(line) == line[..n] + "\n"
                             && All(line[n..], IsSpace) && (n == 0 || !IsSpace(line[n - 1]))
  {
    var r := TrimRight(line, IsSpace);
    assert line[..|r|] == r;
    if Ended(line) && (|line| == 1 || !IsSpace(line[|line| - 2])) {
      var t := line[..|line| - 1];
      assert line == t + "\n" && IsSpace('\n');
      TrimRightIs(t, "\n", IsSpace);
    }
    hide IsSpace, TrimRight;
    if NoTrailingSpace(line) {
      assert line == r + "\n";
    }
  }

  lemma WhitespaceSound()
    ensures Sound(WHITESPACE, false) && KeepsGuards(WHITESPACE, false)
  {
    hide Trimmed, NoTrailingSpace, Trim;
    forall x | IsLine(x)
      ensures IsLine(WHITESPACE.fix(x)) && Ended(WHITESPACE.fix(x)) && WHITESPACE.complies(WHITESPACE.fix(x))
      ensures Strip(WHITESPACE.fix(x)) == Strip(x)
    {
      TrimmedShape(x);
    }
  }

  // ---------- emacs file style ----------

  predicate NoEmacsStyle(line: string)
  {
    !Contains(Strip(line), "c-file-style:") && !Contains(Strip(line), "py-indent-offset:")
  }

  function Deleted(line: string): string { "" }

  const EMACS := Checker(NoEmacsStyle, Deleted)

  lemma EmacsSound()
    ensures Sound(EMACS, true)
  {
    hide NoEmacsStyle, IsOff, IsOn;
    forall x | IsOff(x) ensures NoEmacsStyle(x) {
      GuardIsNoEmacsStyle(x);
    }
  }

  /** The emacs check rejects just the lines in which one of the two settings occurs. */
  lemma EmacsIff(line: string)
    ensures EMACS.complies(line)
       <==> forall i: nat :: !OccursAt(line, "c-file-style:", i) && !OccursAt(line, "py-indent-offset:", i)
    ensures EMACS.fix(line) == ""
  {
    hide Contains, Trim, OccursAt;
    SettingsUnbroken();
    hide IsSpace;
    ContainsStripped(line, "c-file-style:");
    ContainsStripped(line, "py-indent-offset:");
    ContainsIff(line, "c-file-style:");
    ContainsIff(line, "py-indent-offset:");
  }

  lemma SettingsUnbroken()
    ensures forall c :: c in "c-file-style:" || c in "py-indent-offset:" ==> !IsSpace(c)
  {
    assert forall c :: c in "c-file-style:" || c in "py-indent-offset:" ==> '-' <= c <= 'y';
  }

  lemma GuardIsNoEmacsStyle(x: string)
    requires IsOff(x)
    ensures NoEmacsStyle(x)
  {
    hide Trim, Contains;
    var t := Strip(x);
    assert 's' !in t;
    if Contains(t, "c-file-style:") {
      ContainedChar(t, "c-file-style:", 7);
    }
    if Contains(t, "py-indent-offset:") {
      ContainedChar(t, "py-indent-offset:", 13);
    }
  }

  lemma ContainedChar(t: string, pat: string, k: nat)
    requires k < |pat| && Contains(t, pat)
    ensures pat[k] in t
  {
    var i := WhereContained(t, pat);
    assert t[i + k] == t[i..i + |pat|][k];
  }

  // ---------- license texts ----------

  const GPL_FIRST_LINE := "This program is free software; " + "you can redistribute it and/or modify"

  const GPL_FITNESS := "MERCHANTABILITY or FITNESS " + "FOR A PARTICULAR PURPOSE."

  const GPL_LICENSE_LINES: seq<string> := [
    GPL_FIRST_LINE,
    "it under the terms of the GNU General Public License version 2 as",
    "published by the Free Software Foundation;",
    "This program is distributed in the hope that it will be useful,",
    "but WITHOUT ANY WARRANTY; without even the implied warranty of",
    GPL_FITNESS + "  See the",
    "GNU General Public License for more details.",
    "You should have received a copy of the GNU General Public License",
    "along with this program; if not, write to the Free Software",
    "Foundation, Inc., 59 Temple Place, Suite 330, Boston, MA  02111-1307  USA"
  ]

  const SPDX_LICENSE := "SPDX-License-Identifier: GPL-2.0-only"

  predicate IsCommentChar(c: char) { c == '*' || c == '#' || c == '/' }

  /** The text of a line without the comment marks around it. */
  function Uncommented(line: string): string { Strip(Trim(Strip(line), IsCommentChar)) }

  predicate NoGplText(line: string) { Uncommented(line) !in GPL_LICENSE_LINES }

  function Spdx(line: string): string
  {
    var text := Uncommented(line);
    if text != "" && text == GPL_LICENSE_LINES[0] then Replace(line, text, SPDX_LICENSE) else ""
  }

  const LICENSES := Checker(NoGplText, Spdx)

  /** Neither blank nor comment mark at either end. */
  ghost predicate Bare(s: string)
  {
    s != "" && Tight(s, IsSpace) && Tight(s, IsCommentChar)
  }

  lemma FirstLineFacts()
    ensures |GPL_FIRST_LINE| == 68 && GPL_FIRST_LINE[0] == 'T' && GPL_FIRST_LINE[67] == 'y'
    ensures |SPDX_LICENSE| == 37 && SPDX_LICENSE[0] == 'S' && SPDX_LICENSE[36] == 'y'
  {
    var head, tail := "This program is free software; ", "you can redistribute it and/or modify";
    assert |head| == 31 && |tail| == 37 && head[0] == 'T' && tail[36] == 'y';
  }

  lemma GplLengths()
    ensures forall i :: 0 <= i < |GPL_LICENSE_LINES| ==> |GPL_LICENSE_LINES[i]| > 40 && |GPL_LICENSE_LINES[i]| != 60
  {
    var g := GPL_LICENSE_LINES;
    assert |g[0]| == 68 && |g[1]| == 65 && |g[2]| == 42 && |g[3]| == 63 && |g[4]| == 62 && |g[5]| == 61;
    assert |g[6]| == 44 && |g[7]| == 65 && |g[8]| == 59 && |g[9]| == 73;
  }

  lemma SpdxFacts()
    ensures Bare(SPDX_LICENSE) && '\n' !in SPDX_LICENSE && |SPDX_LICENSE| == 37
  {
    FirstLineFacts();
    assert forall c :: c in SPDX_LICENSE ==> c >= ' ';
  }

  lemma GplFacts()
    ensures forall i :: 0 <= i < |GPL_LICENSE_LINES| ==> |GPL_LICENSE_LINES[i]| > 40
    ensures Bare(GPL_LICENSE_LINES[0]) && GPL_LICENSE_LINES[0][0] == 'T'
    ensures Bare(SPDX_LICENSE) && '\n' !in SPDX_LICENSE && SPDX_LICENSE !in GPL_LICENSE_LINES
  {
    assert GPL_LICENSE_LINES[0] == GPL_FIRST_LINE;
    GplLengths();
    FirstLineFacts();
    SpdxFacts();
    hide GPL_LICENSE_LINES, GPL_FIRST_LINE, SPDX_LICENSE;
  }

  /** A line is blanks, comment marks, blanks, text, blanks, comment marks, blanks; and any bare text put in the
      place of the text becomes the text. */
  lemma Unwrapped(line: string) returns (pre: string, post: string)
    ensures line == pre + Uncommented(line) + post
    ensures forall c :: c in pre || c in post ==> IsSpace(c) || IsCommentChar(c)
    ensures Uncommented(line) != "" ==> forall t :: Bare(t) ==> Uncommented(pre + t + post) == t
  {
    var w1, w4 := TrimSplits(line, IsSpace);
    var s1 := Strip(line);
    var m1, m2 := TrimSplits(s1, IsCommentChar);
    var s2 := Trim(s1, IsCommentChar);
    var w2, w3 := TrimSplits(s2, IsSpace);
    var s3 := Strip(s2);
    hide IsSpace, IsCommentChar, Trim;
    pre, post := w1 + m1 + w2, w3 + m2 + w4;
    assert line == pre + s3 + post;
    if s3 != "" {
      forall t | Bare(t) ensures Uncommented(pre + t + post) == t {
        Rewrapped(w1, m1, w2, s3, w3, m2, w4, t);
        assert pre + t + post == w1 + (m1 + (w2 + t + w3) + m2) + w4;
      }
    }
  }

  lemma SpaceIsNoMark(c: char)
    ensures !(IsSpace(c) && IsCommentChar(c))
  {
  }

  lemma Rewrapped(w1: string, m1: string, w2: string, s: string, w3: string, m2: string, w4: string, t: string)
    requires All(w1, IsSpace) && All(w2, IsSpace) && All(w3, IsSpace) && All(w4, IsSpace)
    requires All(m1, IsCommentChar) && All(m2, IsCommentChar)
    requires Tight(m1 + (w2 + s + w3) + m2, IsSpace) && s != "" && Bare(t)
    ensures Uncommented(w1 + (m1 + (w2 + t + w3) + m2) + w4) == t
  {
    hide IsSpace, IsCommentChar, Trim;
    var s1, inner := m1 + (w2 + s + w3) + m2, w2 + t + w3;
    var t1 := m1 + inner + m2;
    EndsOf(m1, w2, s, w3, m2);
    EndsOf(m1, w2, t, w3, m2);
    SpaceIsNoMark(t1[0]);
    SpaceIsNoMark(t1[|t1| - 1]);
    SpaceIsNoMark(inner[0]);
    SpaceIsNoMark(inner[|inner| - 1]);
    TrimIs(w1, t1, w4, IsSpace);
    TrimIs(m1, inner, m2, IsCommentChar);
    TrimIs(w2, t, w3, IsSpace);
  }

  /** First and last characters of a wrapped text. */
  lemma EndsOf(m1: string, w2: string, s: string, w3: string, m2: string)
    requires s != "" && All(w2, IsSpace) && All(w3, IsSpace) && All(m1, IsCommentChar) && All(m2, IsCommentChar)
    ensures var inner := w2 + s + w3; var all := m1 + inner + m2;
            && (m1 != "" ==> IsCommentChar(all[0])) && (m1 == "" ==> all[0] == inner[0])
            && (m2 != "" ==> IsCommentChar(all[|all| - 1])) && (m2 == "" ==> all[|all| - 1] == inner[|inner| - 1])
            && (w2 != "" ==> IsSpace(inner[0])) && (w2 == "" ==> inner[0] == s[0])
            && (w3 != "" ==> IsSpace(inner[|inner| - 1])) && (w3 == "" ==> inner[|inner| - 1] == s[|s| - 1])
  {
    hide IsSpace, IsCommentChar;
    var inner := w2 + s + w3;
    assert m1 != "" ==> (m1 + inner + m2)[0] == m1[0] && m1[0] in m1;
    assert m2 != "" ==> (m1 + inner + m2)[|m1 + inner + m2| - 1] == m2[|m2| - 1] && m2[|m2| - 1] in m2;
    assert w2 != "" ==> inner[0] == w2[0] && w2[0] in w2;
    assert w3 != "" ==> inner[|inner| - 1] == w3[|w3| - 1] && w3[|w3| - 1] in w3;
  }

  /** Replacing the GPL text keeps everything around it. */
  lemma SpdxIs(line: string) returns (pre: string, post: string)
    requires Uncommented(line) == GPL_LICENSE_LINES[0]
    ensures line == pre + GPL_LICENSE_LINES[0] + post && Spdx(line) == pre + SPDX_LICENSE + post
    ensures Uncommented(Spdx(line)) == SPDX_LICENSE
  {
    GplFacts();
    pre, post := Unwrapped(line);
    hide GPL_LICENSE_LINES, SPDX_LICENSE, Uncommented;
    var text := Uncommented(line);
    assert !IsSpace('T') && !IsCommentChar('T');
    hide IsSpace, IsCommentChar;
    ReplaceOnly(pre, text, post, SPDX_LICENSE);
  }

  /** A line with any other of the license texts is deleted. */
  lemma OtherTextsDeleted(line: string)
    requires Uncommented(line) in GPL_LICENSE_LINES && Uncommented(line) != GPL_LICENSE_LINES[0]
    ensures !LICENSES.complies(line) && LICENSES.fix(line) == ""
  {
    hide GPL_LICENSE_LINES, Uncommented;
  }

  lemma GuardIsNoGplText(x: string)
    requires IsOff(x)
    ensures NoGplText(x)
  {
    GplFacts();
    hide GPL_LICENSE_LINES;
    NotBoth(x);
    hide IsOff, FORMAT_GUARD_OFF;
    UncommentedIsShort(x);
  }

  lemma UncommentedIsShort(x: string)
    ensures |Uncommented(x)| <= |Strip(x)|
  {
    hide IsSpace, IsCommentChar, TrimLeft, TrimRight;
  }

  lemma SpdxShape(x: string)
    requires IsLine(x) && !NoGplText(x)
    ensures Spdx(x) == "" || (IsLine(Spdx(x)) && NoGplText(Spdx(x)) && (Ended(x) ==> Ended(Spdx(x))))
  {
    GplFacts();
    if Uncommented(x) == GPL_LICENSE_LINES[0] {
      var pre, post := SpdxIs(x);
      hide GPL_LICENSE_LINES, SPDX_LICENSE, Uncommented, Spdx;
      ReplacedShape(pre, GPL_LICENSE_LINES[0], SPDX_LICENSE, post);
    } else {
      hide GPL_LICENSE_LINES, Uncommented;
      assert Spdx(x) == "";
    }
  }

  lemma ReplacedShape(pre: string, a: string, b: string, post: string)
    requires a != "" && b != "" && '\n' !in b && a[|a| - 1] != '\n' && b[|b| - 1] != '\n' && IsLine(pre + a + post)
    ensures IsLine(pre + b + post) && (Ended(pre + a + post) ==> Ended(pre + b + post))
  {
    var x, y := pre + a + post, pre + b + post;
    assert post == "" ==> x[|x| - 1] == a[|a| - 1];
    assert forall k :: 0 <= k < |pre| ==> x[..|x| - 1][k] == pre[k];
    assert '\n' !in pre;
    if post != "" {
      assert forall k :: 0 <= k < |post| - 1 ==> x[..|x| - 1][|pre| + |a| + k] == post[k];
      assert '\n' !in post[..|post| - 1];
      assert y[..|y| - 1] == pre + b + post[..|post| - 1];
    }
  }

  lemma LicensesSound()
    ensures Sound(LICENSES, true)
  {
    hide NoGplText, Spdx, IsOff, IsOn;
    forall x | IsLine(x) && !LICENSES.complies(x)
      ensures var y := LICENSES.fix(x); y == "" || (IsLine(y) && LICENSES.complies(y) && (Ended(x) ==> Ended(y)))
    {
      SpdxShape(x);
    }
    forall x | IsOff(x) ensures NoGplText(x) {
      GuardIsNoGplText(x);
    }
  }

  // ---------- the checks together ----------

  /** Fixing with any of these checks makes the file pass that check, and a second fix changes nothing. */
  lemma EachFixPasses(content: string)
    ensures Passes(TABS, Fix(TABS, content, true), true)
    ensures Passes(EMACS, Fix(EMACS, content, true), true)
    ensures Passes(LICENSES, Fix(LICENSES, content, true), true)
    ensures Passes(WHITESPACE, Fix(WHITESPACE, content, false), false)
    ensures Fix(TABS, Fix(TABS, content, true), true) == Fix(TABS, content, true)
    ensures Fix(EMACS, Fix(EMACS, content, true), true) == Fix(EMACS, content, true)
    ensures Fix(LICENSES, Fix(LICENSES, content, true), true) == Fix(LICENSES, content, true)
    ensures Fix(WHITESPACE, Fix(WHITESPACE, content, false), false) == Fix(WHITESPACE, content, false)
  {
    TabsSound();
    EmacsSound();
    LicensesSound();
    WhitespaceSound();
    hide Passes, Fix, Sound, TABS, EMACS, LICENSES, WHITESPACE;
    FixThenCheckPasses(TABS, content, true);
    FixThenCheckPasses(EMACS, content, true);
    FixThenCheckPasses(LICENSES, content, true);
    FixThenCheckPasses(WHITESPACE, content, false);
  }

  lemma EmacsSurvives()
    ensures Respects(EMACS, WHITESPACE) && Respects(EMACS, TABS)
  {
    hide NoEmacsStyle, Untabbed, Trimmed, NoTab, NoTrailingSpace, Trim;
    forall x | IsLine(x) && NoEmacsStyle(x) ensures NoEmacsStyle(Untabbed(x)) && NoEmacsStyle(Trimmed(x)) {
      EmacsSurvivesTabs(x);
      EmacsSurvivesTrimming(x);
    }
  }

  lemma EmacsSurvivesTrimming(x: string)
    requires IsLine(x) && NoEmacsStyle(x)
    ensures NoEmacsStyle(Trimmed(x))
  {
    hide Trim, Contains, Trimmed;
    TrimmedShape(x);
  }

  lemma EmacsSurvivesTabs(x: string)
    requires NoEmacsStyle(x)
    ensures NoEmacsStyle(Untabbed(x))
  {
    hide Trim, Contains, Untabbed;
    PatternSurvivesTabs(x, "c-file-style:");
    PatternSurvivesTabs(x, "py-indent-offset:");
  }

  lemma UntabbedContains(x: string, pat: string)
    requires pat != "" && ' ' !in pat && Contains(Untabbed(x), pat)
    ensures Contains(x, pat)
  {
    var i := WhereContained(Untabbed(x), pat);
    hide Contains, ExpandTabs;
    ExpandedContains(x, 0, pat, i);
  }

  lemma PatternSurvivesTabs(x: string, pat: string)
    requires pat != "" && forall c :: c in pat ==> !IsSpace(c)
    ensures Contains(Strip(Untabbed(x)), pat) ==> Contains(Strip(x), pat)
  {
    hide Contains, Trim;
    assert ' ' !in pat by { assert IsSpace(' '); }
    hide IsSpace, Untabbed;
    ContainsStripped(x, pat);
    ContainsStripped(Untabbed(x), pat);
    if Contains(Untabbed(x), pat) {
      UntabbedContains(x, pat);
    }
  }

  lemma WhitespaceSurvivesTabs()
    ensures Respects(WHITESPACE, TABS)
  {
    hide Untabbed, NoTrailingSpace, NoTab;
    forall x | IsLine(x) && NoTrailingSpace(x) ensures NoTrailingSpace(Untabbed(x)) {
      WhitespaceSurvivesLine(x);
    }
  }

  lemma WhitespaceSurvivesLine(x: string)
    requires IsLine(x) && NoTrailingSpace(x)
    ensures NoTrailingSpace(Untabbed(x))
  {
    var r := TrimRight(x, IsSpace);
    hide TrimRight;
    assert x == r + "\n";
    ExpandConcat(r, "\n", 0);
    ExpandNoTab("\n", ColumnAfter(r, 0));
    var e := ExpandTabs(r, 0);
    if r != "" {
      var last := [r[|r| - 1]];
      assert r == r[..|r| - 1] + last;
      ExpandConcat(r[..|r| - 1], last, 0);
      ExpandNoTab(last, ColumnAfter(r[..|r| - 1], 0));
    }
    TrimRightIs(e, "\n", IsSpace);
  }

  /** One run of the fixer with these three checks, in its order, leaves a file that passes all three. */
  lemma FullFixPasses(content: string)
    ensures var fixed := Fix(TABS, Fix(WHITESPACE, Fix(EMACS, content, true), false), true);
            Passes(EMACS, fixed, true) && Passes(WHITESPACE, fixed, false) && Passes(TABS, fixed, true)
  {
    TabsSound();
    EmacsSound();
    WhitespaceSound();
    EmacsSurvives();
    WhitespaceSurvivesTabs();
    hide Passes, Fix, Respects, FixComplies, KeepsGuards, KeepsShape, TABS, EMACS, WHITESPACE;
    var c1 := Fix(EMACS, content, true);
    var c2 := Fix(WHITESPACE, c1, false);
    FixThenCheckPasses(EMACS, content, true);
    FixThenCheckPasses(WHITESPACE, c1, false);
    FixThenCheckPasses(TABS, c2, true);
    PassingSurvives(EMACS, true, WHITESPACE, false, c1);
    PassingSurvives(EMACS, true, TABS, true, c2);
    PassingSurvives(WHITESPACE, false, TABS, true, c2);
  }

  // ---------- what a fix can bring about ----------

  ghost predicate Plain(s: string) { '\t' !in s && '\n' !in s && '\r' !in s }

  const OFF_TEXT := "clang-format off"

  const NEARLY_OFF := " " + ("//" + "\t" + OFF_TEXT) + "\n"

  lemma OffTextFacts()
    ensures Plain(OFF_TEXT) && |OFF_TEXT| == 16 && OFF_TEXT[15] == 'f'
    ensures "//" + " " + OFF_TEXT == "// clang-format off"
  {
    assert forall c :: c in OFF_TEXT ==> c >= ' ';
  }

  lemma NearlyOffUntabbed()
    ensures Untabbed(NEARLY_OFF) == " " + ("//" + " " + OFF_TEXT) + "\n"
  {
    OffTextFacts();
    hide OFF_TEXT, ExpandTabs, ColumnAfter;
    var tail := OFF_TEXT + "\n";
    assert NEARLY_OFF == " //" + ("\t" + tail);
    ExpandConcat(" //", "\t" + tail, 0);
    ExpandConcat("\t", tail, 3);
    PlainColumn(" //", 0);
    ExpandNoTab(" //", 0);
    ExpandNoTab(tail, 4);
    TabAt(3);
    assert " //" + (" " + tail) == " " + ("//" + " " + OFF_TEXT) + "\n";
  }

  lemma WrappedStrip(t: string)
    requires t != "" && !IsSpace(t[0]) && !IsSpace(t[|t| - 1])
    ensures Strip(" " + t + "\n") == t
  {
    hide Trim;
    TrimIs(" ", t, "\n", IsSpace);
  }

  /** Fixing tabs can make a guard out of an ordinary line. */
  lemma TabFixMakesGuard()
    ensures !IsGuard(NEARLY_OFF) && IsOff(Untabbed(NEARLY_OFF))
  {
    NearlyOffText();
    OffTextFacts();
    hide NEARLY_OFF, Untabbed, Trim, OFF_TEXT;
    NotAGuardText("//" + "\t" + OFF_TEXT);
    hide FORMAT_GUARD_ON;
    assert "// clang-format off" in FORMAT_GUARD_OFF;
  }

  lemma NearlyOffText()
    ensures Strip(NEARLY_OFF) == "//" + "\t" + OFF_TEXT
    ensures Strip(Untabbed(NEARLY_OFF)) == "//" + " " + OFF_TEXT
  {
    NearlyOffUntabbed();
    OffTextFacts();
    hide OFF_TEXT, Untabbed, Trim;
    WrappedStrip("//" + "\t" + OFF_TEXT);
    WrappedStrip("//" + " " + OFF_TEXT);
  }

  lemma NotAGuardText(t: string)
    requires |t| == 19 && t[2] == '\t'
    ensures t !in FORMAT_GUARD_ON && t !in FORMAT_GUARD_OFF
  {
    assert "// clang-format off"[2] == ' ' && "# cmake-format: off"[2] == 'c';
  }

  lemma TabAt(col: nat)
    requires col % 4 >= 2
    ensures ColumnAfter("\t", col) == col + 4 - col % 4
    ensures ExpandTabs("\t", col) == if col % 4 == 3 then " " else "  "
  {
    assert "\t"[1..] == "";
    assert ExpandTabs("", col + 4 - col % 4) == "";
    if col % 4 == 3 {
      assert Blanks(1) == " ";
    } else {
      assert Blanks(1) == " " && Blanks(2) == "  ";
    }
  }

  /** A line with a tab where a license text has two blanks. */
  const DISGUISED := "# " + GPL_FITNESS + "\t" + "See the" + "\n"

  lemma PlainParts()
    ensures Plain("MERCHANTABILITY or FITNESS ") && Plain("FOR A PARTICULAR PURPOSE.") && Plain("See the")
  {
    PlainHead();
    PlainTail();
  }

  lemma PlainHead()
    ensures Plain("MERCHANTABILITY or FITNESS ")
  {
    assert forall c :: c in "MERCHANTABILITY or FITNESS " ==> c >= ' ';
  }

  lemma PlainTail()
    ensures Plain("FOR A PARTICULAR PURPOSE.")
  {
    assert forall c :: c in "FOR A PARTICULAR PURPOSE." ==> c >= ' ';
  }

  lemma FitnessFacts()
    ensures |GPL_FITNESS| == 52 && GPL_FITNESS[0] == 'M' && Plain(GPL_FITNESS)
  {
    PlainParts();
    var a, b := "MERCHANTABILITY or FITNESS ", "FOR A PARTICULAR PURPOSE.";
    assert |a| == 27 && |b| == 25 && a[0] == 'M';
  }

  lemma TabThen(tail: string, col: nat)
    requires '\t' !in tail && col % 4 == 2
    ensures ExpandTabs("\t" + tail, col) == "  " + tail
  {
    TabAt(col);
    ExpandConcat("\t", tail, col);
    hide ExpandTabs, ColumnAfter;
    ExpandNoTab(tail, ColumnAfter("\t", col));
  }

  /** A tab behind columns that leave two blanks to the next stop. */
  lemma OneTab(head: string, tail: string)
    requires '\t' !in head && '\t' !in tail && ColumnAfter(head, 0) % 4 == 2
    ensures Untabbed(head + ("\t" + tail)) == head + "  " + tail
  {
    hide ExpandTabs, ColumnAfter;
    ExpandConcat(head, "\t" + tail, 0);
    TabThen(tail, ColumnAfter(head, 0));
    ExpandNoTab(head, 0);
    assert head + ("  " + tail) == head + "  " + tail;
  }

  lemma DisguisedUntabbed()
    ensures Untabbed(DISGUISED) == "# " + GPL_FITNESS + "  " + "See the" + "\n"
  {
    FitnessFacts();
    hide GPL_FITNESS, Untabbed, ExpandTabs, ColumnAfter;
    var head, tail := "# " + GPL_FITNESS, "See the" + "\n";
    assert DISGUISED == head + ("\t" + tail);
    PlainColumn(head, 0);
    OneTab(head, tail);
    assert head + "  " + tail == "# " + GPL_FITNESS + "  " + "See the" + "\n";
  }

  lemma DisguisedText()
    ensures Uncommented(DISGUISED) == GPL_FITNESS + "\t" + "See the"
    ensures Uncommented(Untabbed(DISGUISED)) == GPL_FITNESS + "  " + "See the"
  {
    FitnessFacts();
    DisguisedUntabbed();
    hide GPL_FITNESS, Uncommented, Untabbed;
    MarkedText(GPL_FITNESS + "\t" + "See the");
    MarkedText(GPL_FITNESS + "  " + "See the");
    assert DISGUISED == "# " + (GPL_FITNESS + "\t" + "See the") + "\n";
    assert Untabbed(DISGUISED) == "# " + (GPL_FITNESS + "  " + "See the") + "\n";
  }

  lemma MarkedText(t: string)
    requires Bare(t)
    ensures Uncommented("# " + t + "\n") == t
  {
    hide Trim, Uncommented;
    var s := "#" + (" " + t + "") + "";
    assert s[0] == '#' && s[|s| - 1] == t[|t| - 1];
    Rewrapped("", "#", " ", t, "", "", "\n", t);
    assert "# " + t + "\n" == "" + ("#" + (" " + t + "") + "") + "\n";
  }

  lemma DisguisedLength()
    ensures forall i :: 0 <= i < |GPL_LICENSE_LINES| ==> |GPL_LICENSE_LINES[i]| != 60
    ensures GPL_FITNESS + "  " + "See the" in GPL_LICENSE_LINES
  {
    GplLengths();
    assert "  See the" == "  " + "See the";
    hide GPL_FITNESS;
    assert GPL_LICENSE_LINES[5] == GPL_FITNESS + "  See the" == GPL_FITNESS + "  " + "See the";
  }

  lemma DisguisedVerdicts()
    ensures NoGplText(DISGUISED) && !NoGplText(Untabbed(DISGUISED))
    ensures |Uncommented(DISGUISED)| == 60 && |Uncommented(Untabbed(DISGUISED))| == 61
  {
    FitnessFacts();
    DisguisedText();
    DisguisedLength();
    hide GPL_FITNESS, GPL_LICENSE_LINES, Uncommented, Untabbed, DISGUISED;
  }

  lemma DisguisedIsLine()
    ensures IsLine(DISGUISED) && !NoTab(DISGUISED)
  {
    FitnessFacts();
    PlainParts();
    hide GPL_FITNESS;
    assert DISGUISED[..|DISGUISED| - 1] == "# " + GPL_FITNESS + "\t" + "See the";
    assert DISGUISED[54] == '\t';
  }

  lemma SingleExamined(x: string)
    requires !IsGuard(x)
    ensures Examined([x], 0, true)
  {
    hide IsOn, IsOff, Trim, Enabled;
    assert [] + [x] == [x] && [x][..0 + 1] == [x];
    EnabledSnoc([], x);
    EnabledAtStart();
  }

  lemma EnabledAtStart()
    ensures Enabled([])
  {
  }

  lemma SingleFixed(ck: Checker, x: string)
    requires Examined([x], 0, true)
    ensures Fixed(ck, [x], true) == [if ck.complies(x) then x else ck.fix(x)]
    ensures Clean(ck, [x], true) <==> ck.complies(x)
  {
    hide Examined;
    assert Offends(ck, [x], 0, true) <==> !ck.complies(x);
  }

  /** A file of one ordinary line. */
  lemma SingleLine(ck: Checker, x: string)
    requires IsLine(x) && !IsGuard(x)
    ensures Passes(ck, x, true) <==> ck.complies(x)
    ensures Fix(ck, x, true) == if ck.complies(x) then x else ck.fix(x)
  {
    hide IsGuard, IsLine, Examined, Clean, Fixed, ReadLines, Concat;
    OneLine(x);
    SingleExamined(x);
    SingleFixed(ck, x);
    ConcatOne(if ck.complies(x) then x else ck.fix(x));
  }

  lemma ConcatOne(s: string)
    ensures Concat([s]) == s
  {
    assert [s][1..] == [];
  }

  lemma OneLine(x: string)
    requires IsLine(x)
    ensures ReadLines(x) == [x]
  {
    ReadLinesOfConcat([x]);
    assert [x][1..] == [] && Concat([x]) == x;
  }

  /** The license check runs before the tabs are fixed, and fixing them can uncover a license text: a file that
      passes the license check need not pass it after the whole run. */
  lemma TabFixUncoversLicense()
    ensures Passes(LICENSES, DISGUISED, true) && !Passes(LICENSES, Fix(TABS, DISGUISED, true), true)
  {
    DisguisedVerdicts();
    DisguisedIsLine();
    hide DISGUISED, Uncommented, NoGplText, Passes, Fix;
    var x, y := DISGUISED, Untabbed(DISGUISED);
    UntabbedShape(x);
    hide Untabbed, NoTab;
    UncommentedIsShort(x);
    UncommentedIsShort(y);
    NotBoth(x);
    NotBoth(y);
    hide IsOn, IsOff, IsLine;
    SingleLine(TABS, x);
    SingleLine(LICENSES, x);
    SingleLine(LICENSES, y);
  }

  lemma UntabbedGuard(x: string)
    requires IsGuard(x)
    ensures IsOn(Untabbed(x)) == IsOn(x) && IsOff(Untabbed(x)) == IsOff(x)
  {
    GuardTextHasNoTab(x);
    ExpandKeepsStrip(x);
    hide Trim;
  }

  lemma GuardTextHasNoTab(line: string)
    requires IsGuard(line)
    ensures '\t' !in Strip(line) && Strip(line) != ""
  {
    hide Trim;
  }

  lemma UntabbedLine(ls: seq<string>, i: nat)
    requires i < |ls| && IsLine(ls[i])
    ensures FixedLine(TABS, ls, i, true) == if Examined(ls, i, true) then Untabbed(ls[i]) else ls[i]
    ensures FixedLine(TABS, ls, i, true) != ""
  {
    UntabbedShape(ls[i]);
    if NoTab(ls[i]) {
      ExpandNoTab(ls[i], 0);
    }
    hide Examined, ExpandTabs;
  }

  /** Guards keep their sense under the tabs fix. */
  lemma GuardKept(ls: seq<string>, i: nat)
    requires i < |ls| && IsLine(ls[i])
    ensures var y := FixedLine(TABS, ls, i, true); (IsOn(ls[i]) ==> IsOn(y)) && (IsOff(ls[i]) ==> IsOff(y))
  {
    UntabbedLine(ls, i);
    hide IsOn, IsOff, Examined, FixedLine, Untabbed;
    if IsGuard(ls[i]) {
      UntabbedGuard(ls[i]);
    }
  }

  lemma {:induction false} NothingEmpty(ls: seq<string>)
    requires forall i :: 0 <= i < |ls| ==> ls[i] != ""
    ensures NonEmpty(ls) == ls
  {
    if ls != [] {
      NothingEmpty(ls[..|ls| - 1]);
    }
  }

  /** A guard that switches off is in force if no ON guard follows it. */
  ghost predicate SwitchedOffAt(ls: seq<string>, j: int, i: nat)
    requires i <= |ls|
  {
    0 <= j < i && IsOff(ls[j]) && forall k :: j < k < i ==> !IsOn(ls[k])
  }

  lemma {:induction false} SwitchedOff(ls: seq<string>, j: int, i: nat)
    requires i <= |ls| && SwitchedOffAt(ls, j, i)
    ensures !Enabled(ls[..i])
    decreases i
  {
    hide IsOn, IsOff;
    NotBoth(ls[j]);
    assert ls[..i] == ls[..i - 1] + [ls[i - 1]];
    EnabledSnoc(ls[..i - 1], ls[i - 1]);
    if j < i - 1 {
      SwitchedOff(ls, j, i - 1);
    }
  }

  lemma {:induction false} WhereSwitchedOff(ls: seq<string>, i: nat) returns (j: nat)
    requires i <= |ls| && !Enabled(ls[..i])
    ensures SwitchedOffAt(ls, j, i)
    decreases i
  {
    hide IsOn, IsOff;
    assert ls[..i] == if i == 0 then [] else ls[..i - 1] + [ls[i - 1]];
    if i == 0 {
      EnabledAtStart();
      assert false;
    } else {
      EnabledSnoc(ls[..i - 1], ls[i - 1]);
      NotBoth(ls[i - 1]);
      if IsOff(ls[i - 1]) {
        j := i - 1;
      } else {
        j := WhereSwitchedOff(ls, i - 1);
      }
    }
  }

  /** The tabs fix turns line j into an OFF guard. */
  ghost predicate MadeOff(ls: seq<string>, j: nat)
    requires j < |ls|
  {
    Examined(ls, j, true) && !IsGuard(ls[j]) && IsOff(Untabbed(ls[j]))
  }

  ghost predicate ScreenedBy(ls: seq<string>, i: nat, j: nat)
    requires j < i <= |ls|
  {
    MadeOff(ls, j) && forall k :: j < k < i ==> !IsOn(FixedLine(TABS, ls, k, true))
  }

  /** Line i lies behind a line that the tabs fix turns into an OFF guard, with no ON guard in between. */
  ghost predicate Screened(ls: seq<string>, i: nat)
    requires i <= |ls|
  {
    exists j: nat :: j < i && ScreenedBy(ls, i, j)
  }

  /** What the tabs fix does to one line: a guard stays the guard it is, other lines are expanded where examined. */
  ghost predicate LineFixed(ls: seq<string>, k: nat)
    requires k < |ls|
  {
    var y := FixedLine(TABS, ls, k, true);
    && (IsOn(ls[k]) ==> IsOn(y))
    && (IsOff(ls[k]) ==> IsOff(y))
    && y == if Examined(ls, k, true) then Untabbed(ls[k]) else ls[k]
  }

  lemma LinesFixed(ls: seq<string>)
    requires FileLines(ls)
    ensures forall k :: 0 <= k < |ls| ==> LineFixed(ls, k)
  {
    hide IsOn, IsOff, Examined, FixedLine, Untabbed;
    forall k | 0 <= k < |ls| ensures LineFixed(ls, k) {
      assert IsLine(ls[k]);
      GuardKept(ls, k);
      UntabbedLine(ls, k);
    }
  }

  lemma ScreenedIsOff(ls: seq<string>, i: nat, j: nat)
    requires FileLines(ls) && j < i <= |ls| && ScreenedBy(ls, i, j)
    ensures !Enabled(Fixed(TABS, ls, true)[..i])
  {
    LinesFixed(ls);
    var f := Fixed(TABS, ls, true);
    hide IsOn, IsOff, Enabled, Examined, FixedLine, Untabbed, FileLines, TABS;
    assert LineFixed(ls, j) && f[j] == FixedLine(TABS, ls, j, true) && IsOff(f[j]);
    hide MadeOff, LineFixed, Fixed;
    SwitchedOff(f, j, i);
  }

  lemma ScreenedOff(ls: seq<string>, i: nat)
    requires FileLines(ls) && i <= |ls| && Screened(ls, i)
    ensures !Enabled(Fixed(TABS, ls, true)[..i])
  {
    hide FileLines, ScreenedBy, Enabled, Fixed;
    var j: nat :| j < i && ScreenedBy(ls, i, j);
    ScreenedIsOff(ls, i, j);
  }

  lemma OffIsScreened(ls: seq<string>, i: nat)
    requires FileLines(ls) && i <= |ls| && Enabled(ls[..i]) && !Enabled(Fixed(TABS, ls, true)[..i])
    ensures Screened(ls, i)
  {
    LinesFixed(ls);
    var f := Fixed(TABS, ls, true);
    hide IsOn, IsOff, Enabled, Examined, FixedLine, Untabbed, FileLines, Fixed;
    var j := WhereSwitchedOff(f, i);
    assert LineFixed(ls, j);
    assert forall k :: j < k < i ==> !IsOn(FixedLine(TABS, ls, k, true)) by {
      assert forall k :: j < k < i ==> f[k] == FixedLine(TABS, ls, k, true);
    }
    if IsOff(ls[j]) {
      assert SwitchedOffAt(ls, j, i) by {
        forall k | j < k < i ensures !IsOn(ls[k]) { assert LineFixed(ls, k); }
      }
      SwitchedOff(ls, j, i);
      assert false;
    } else {
      NotBoth(f[j]);
      assert MadeOff(ls, j) && ScreenedBy(ls, i, j);
    }
  }

  /** For a line where checking was on, it is still on after the tabs fix exactly if the line is not screened. */
  lemma ScreenedIff(ls: seq<string>, i: nat)
    requires FileLines(ls) && i <= |ls| && Enabled(ls[..i])
    ensures Enabled(Fixed(TABS, ls, true)[..i]) <==> !Screened(ls, i)
  {
    hide *;
    if Screened(ls, i) {
      ScreenedOff(ls, i);
    } else if !Enabled(Fixed(TABS, ls, true)[..i]) {
      OffIsScreened(ls, i);
      assert false;
    }
  }

  /** Every line that is a license text once its tabs are expanded, and that the checks look at, is screened. */
  ghost predicate NoDisguise(ls: seq<string>)
  {
    forall i :: 0 <= i < |ls| && Disguised(ls, i) ==> Screened(ls, i)
  }

  ghost predicate Disguised(ls: seq<string>, i: nat)
    requires i < |ls|
  {
    Examined(ls, i, true) && !NoGplText(Untabbed(ls[i]))
  }

  /** A line breaks the license check after the tabs fix exactly if it hides a license text and is not screened. */
  lemma OffendsIffDisguised(ls: seq<string>, i: nat)
    requires FileLines(ls) && i < |ls| && !Offends(LICENSES, ls, i, true)
    ensures Offends(LICENSES, Fixed(TABS, ls, true), i, true) <==> Disguised(ls, i) && !Screened(ls, i)
  {
    var f := Fixed(TABS, ls, true);
    assert IsLine(ls[i]);
    UntabbedLine(ls, i);
    hide FixedLine, Untabbed, NoTab, KeepsShape, NoGplText;
    if !Examined(ls, i, true) {
      UnexaminedStays(ls, i);
    } else if !NoGplText(Untabbed(ls[i])) {
      LicenseTextIsNoGuard(ls[i]);
      LastOfPrefix(ls, i);
      LastOfPrefix(f, i);
      ScreenedIff(ls, i);
    }
    hide IsGuard, Enabled, Screened;
  }

  lemma LastOfPrefix(ls: seq<string>, i: nat)
    requires i < |ls| && !IsGuard(ls[i])
    ensures Examined(ls, i, true) == Enabled(ls[..i])
  {
    hide IsOn, IsOff;
    assert ls[..i + 1] == ls[..i] + [ls[i]];
    EnabledSnoc(ls[..i], ls[i]);
  }

  lemma LicenseTextIsNoGuard(x: string)
    requires !NoGplText(Untabbed(x))
    ensures !IsGuard(x) && !IsGuard(Untabbed(x))
  {
    GplFacts();
    hide GPL_LICENSE_LINES, Uncommented;
    var y := Untabbed(x);
    UncommentedIsShort(y);
    NotBoth(y);
    hide Untabbed;
    if IsGuard(x) {
      UntabbedGuard(x);
    }
  }

  /** A line in a region switched off stays there. */
  lemma UnexaminedStays(ls: seq<string>, i: nat)
    requires FileLines(ls) && i < |ls| && !Examined(ls, i, true)
    ensures !Examined(Fixed(TABS, ls, true), i, true)
  {
    var f := Fixed(TABS, ls, true);
    assert IsLine(ls[i]);
    UntabbedLine(ls, i);
    hide Untabbed, FixedLine, IsOn, IsOff;
    PrefixShrinks(ls, i + 1);
    assert f[i] == ls[i];
    hide Enabled;
  }

  lemma PrefixShrinks(ls: seq<string>, n: nat)
    requires FileLines(ls) && n <= |ls|
    ensures Enabled(Fixed(TABS, ls, true)[..n]) ==> Enabled(ls[..n])
  {
    TabsSound();
    hide TABS, FixedLine, Enabled, KeepsGuards, FixComplies, KeepsShape;
    var pre := ls[..n];
    assert FileLines(pre) by { hide IsLine, Ended; }
    forall i | 0 <= i < n
      ensures FixedLine(TABS, pre, i, true) == FixedLine(TABS, ls, i, true) && FixedLine(TABS, pre, i, true) != ""
      ensures Examined(pre, i, true) ==> TABS.complies(FixedLine(TABS, pre, i, true))
    {
      assert IsLine(pre[i]) && IsLine(ls[i]);
      FixedLineFront(TABS, ls, n, i, true);
      UntabbedLine(pre, i);
      if Examined(pre, i, true) {
        FixedLineComplies(TABS, pre, i, true);
      }
    }
    hide Examined, FileLines;
    RegionShrinks(TABS, true, TABS, true, pre);
    NothingEmpty(Fixed(TABS, pre, true));
    assert Fixed(TABS, ls, true)[..n] == Fixed(TABS, pre, true);
  }

  /** The license check survives the tabs fix exactly if every line it looks at that hides a license text behind a
      tab is screened by a guard that the fix makes. */
  lemma LicenseSurvivesTabsIff(content: string)
    requires Passes(LICENSES, content, true)
    ensures Passes(LICENSES, Fix(TABS, content, true), true) <==> NoDisguise(ReadLines(content))
  {
    var ls := ReadLines(content);
    ReadLinesJoin(content);
    TabsSound();
    SecondPassReads(TABS, content, true);
    var f := Fixed(TABS, ls, true);
    forall k | 0 <= k < |f| ensures f[k] != "" {
      assert IsLine(ls[k]);
      UntabbedLine(ls, k);
    }
    NothingEmpty(f);
    hide ReadLines, Fix, Offends, Disguised, Screened, KeepsShape, FixComplies, KeepsGuards, FixedLine;
    forall i | 0 <= i < |ls|
      ensures Offends(LICENSES, f, i, true) <==> Disguised(ls, i) && !Screened(ls, i)
    {
      assert !Offends(LICENSES, ls, i, true);
      OffendsIffDisguised(ls, i);
    }
  }

  // ---------- a whole fixing run ----------

  /** What the tabs fix, the last one, finds: the file after the license, emacs and whitespace fixes. */
  function BeforeTabs(content: string): string
  {
    Fix(WHITESPACE, Fix(EMACS, Fix(LICENSES, content, true), true), false)
  }

  lemma LicensesSurviveOthers()
    ensures Respects(LICENSES, EMACS) && Respects(LICENSES, WHITESPACE)
  {
    hide NoEmacsStyle, NoTrailingSpace, Trim;
    forall x | IsLine(x) && NoGplText(x) ensures NoGplText(Trimmed(x)) {
      hide Trimmed;
      TrimmedShape(x);
    }
  }

  lemma LicensesPassBeforeTabs(content: string)
    ensures Passes(LICENSES, BeforeTabs(content), true)
  {
    LicensesSound();
    EmacsSound();
    WhitespaceSound();
    LicensesSurviveOthers();
    hide Passes, Fix, Respects, FixComplies, KeepsGuards, KeepsShape, LICENSES, EMACS, WHITESPACE;
    FixThenCheckPasses(LICENSES, content, true);
    PassingSurvives(LICENSES, true, EMACS, true, Fix(LICENSES, content, true));
    PassingSurvives(LICENSES, true, WHITESPACE, false, Fix(EMACS, Fix(LICENSES, content, true), true));
  }

  /** A fixing run over any file, the four checks in the script's order: afterwards the emacs, whitespace and tabs
      checks pass, and the license check passes exactly if every line that hides a license text behind a tab when the
      tabs fix comes to it is screened by a guard that this fix makes. */
  lemma FixingRunPassesIff(content: string)
    ensures var fixed := Fix(TABS, BeforeTabs(content), true);
            && Passes(EMACS, fixed, true)
            && Passes(WHITESPACE, fixed, false)
            && Passes(TABS, fixed, true)
            && (Passes(LICENSES, fixed, true) <==> NoDisguise(ReadLines(BeforeTabs(content))))
  {
    hide Passes, Fix, NoDisguise;
    FullFixPasses(Fix(LICENSES, content, true));
    LicensesPassBeforeTabs(content);
    LicenseSurvivesTabsIff(BeforeTabs(content));
  }

  lemma {:induction false} ContainedChars(s: string, pat: string, c: char)
    requires Contains(s, pat) && c in pat
    ensures c in s
  {
    if StartsWith(s, pat) {
      var i :| 0 <= i < |pat| && pat[i] == c;
      assert s[i] == c;
    } else {
      ContainedChars(s[1..], pat, c);
    }
  }

  lemma NoColonHead()
    ensures ':' !in "MERCHANTABILITY or FITNESS "
  {
  }

  lemma NoColonTail()
    ensures ':' !in "FOR A PARTICULAR PURPOSE."
  {
  }

  lemma DisguisedHasNoColon()
    ensures ':' !in DISGUISED
  {
    assert ':' !in GPL_FITNESS by {
      NoColonHead();
      NoColonTail();
    }
    hide GPL_FITNESS;
    assert ':' !in "See the";
  }

  lemma StrippedChars(s: string)
    ensures forall c :: c in Strip(s) ==> c in s
  {
    var pre, post := TrimSplits(s, IsSpace);
    hide Trim, IsSpace;
    assert s == pre + Strip(s) + post;
  }

  /** The emacs patterns have a colon. */
  lemma NoColonNoStyle(x: string)
    requires ':' !in x
    ensures NoEmacsStyle(x)
  {
    assert "c-file-style:"[12] == ':' && "py-indent-offset:"[16] == ':';
    StrippedChars(x);
    hide Trim, Contains;
    if Contains(Strip(x), "c-file-style:") { ContainedChars(Strip(x), "c-file-style:", ':'); }
    if Contains(Strip(x), "py-indent-offset:") { ContainedChars(Strip(x), "py-indent-offset:", ':'); }
  }

  lemma DisguisedIsTrimmed()
    ensures NoTrailingSpace(DISGUISED)
  {
    hide GPL_FITNESS;
    var head := "# " + GPL_FITNESS + "\t" + "See the";
    assert DISGUISED == head + "\n" && head[|head| - 1] == 'e';
    hide DISGUISED, TrimRight;
    TrimRightIs(head, "\n", IsSpace);
  }

  /** A whole fixing run can leave a file that fails the license check, so that a second run finds an offence. */
  lemma FixingRunLeavesLicense()
    ensures !Passes(LICENSES, Fix(TABS, BeforeTabs(DISGUISED), true), true)
  {
    TabFixUncoversLicense();
    DisguisedVerdicts();
    DisguisedIsLine();
    DisguisedHasNoColon();
    DisguisedIsTrimmed();
    hide DISGUISED, Uncommented, NoGplText, NoEmacsStyle, NoTrailingSpace, Untabbed, Passes, Fix;
    NoColonNoStyle(DISGUISED);
    UncommentedIsShort(DISGUISED);
    NotBoth(DISGUISED);
    SingleLine(LICENSES, DISGUISED);
    SingleLine(EMACS, DISGUISED);
    SingleTrimmed(DISGUISED);
  }

  lemma SingleTrimmed(x: string)
    requires IsLine(x) && NoTrailingSpace(x)
    ensures Fix(WHITESPACE, x, false) == x
  {
    OneLine(x);
    assert Fixed(WHITESPACE, [x], false) == [x];
    ConcatOne(x);
  }
}
