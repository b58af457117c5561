/** The style checker's file pass: checks every line outside the regions switched off by format guards, fixes the
    ones that fail, and writes the file back. */
module StyleFixer {
  import opened Common
  import opened Text

  /** A line check: whether a line complies, and what it becomes when it does not. */
  datatype Checker = Checker(complies: string -> bool, fix: string -> string)

  const FORMAT_GUARD_ON: set<string> := {"// clang-format on", "# cmake-format: on", "# fmt: on"}
  const FORMAT_GUARD_OFF: set<string> := {"// clang-format off", "# cmake-format: off", "# fmt: off"}

  predicate IsOn(line: string) { Strip(line) in FORMAT_GUARD_ON }

  predicate IsOff(line: string) { Strip(line) in FORMAT_GUARD_OFF }

  predicate IsGuard(line: string) { IsOn(line) || IsOff(line) }

  lemma NotBoth(line: string)
    ensures !(IsOn(line) && IsOff(line))
    ensures IsGuard(line) ==> 9 <= |Strip(line)| <= 19 && line != ""
  {
    hide Trim;
    var t := Strip(line);
    if t in FORMAT_GUARD_ON {
      assert |t| in {18, 9};
    }
    if t in FORMAT_GUARD_OFF {
      assert |t| in {19, 10};
    }
    StripEmpty();
  }

  lemma StripEmpty()
    ensures Strip("") == ""
  {
  }

  /** Whether checking is switched on after the given lines. */
  function Enabled(ls: seq<string>): bool
  {
    if ls == [] then true
    else if IsOn(ls[|ls| - 1]) then true
    else if IsOff(ls[|ls| - 1]) then false
    else Enabled(ls[..|ls| - 1])
  }

  /** Whether the pass looks at line i: guards always, other lines only where checking is on. */
  predicate Examined(ls: seq<string>, i: nat, respect: bool)
    requires i < |ls|
  {
    !respect || IsGuard(ls[i]) || Enabled(ls[..i + 1])
  }

  /** What line i becomes when the file is fixed. */
  function FixedLine(ck: Checker, ls: seq<string>, i: nat, respect: bool): string
    requires i < |ls|
  {
    if Examined(ls, i, respect) && !ck.complies(ls[i]) then ck.fix(ls[i]) else ls[i]
  }

  function Fixed(ck: Checker, ls: seq<string>, respect: bool): (r: seq<string>)
    ensures |r| == |ls| && forall i :: 0 <= i < |ls| ==> r[i] == FixedLine(ck, ls, i, respect)
  {
    seq(|ls|, i requires 0 <= i < |ls| => FixedLine(ck, ls, i, respect))
  }

  /** The lines that break the style, by number. */
  predicate Offends(ck: Checker, ls: seq<string>, i: nat, respect: bool)
    requires i < |ls|
  {
    Examined(ls, i, respect) && !ck.complies(ls[i])
  }

  function Offences(ck: Checker, ls: seq<string>, respect: bool, n: nat): seq<nat>
    requires n <= |ls|
  {
    if n == 0 then []
    else Offences(ck, ls, respect, n - 1) + if Offends(ck, ls, n - 1, respect) then [n - 1] else []
  }

  ghost predicate Clean(ck: Checker, ls: seq<string>, respect: bool)
  {
    forall i :: 0 <= i < |ls| ==> !Offends(ck, ls, i, respect)
  }

  /** The file passes the check. */
  ghost predicate Passes(ck: Checker, content: string, respect: bool) { Clean(ck, ReadLines(content), respect) }

  /** The file after one fixing pass. */
  function Fix(ck: Checker, content: string, respect: bool): string
  {
    Concat(Fixed(ck, ReadLines(content), respect))
  }

  // ---------- the pass itself ----------

  lemma EnabledSnoc(d: seq<string>, y: string)
    ensures Enabled(d + [y]) == if IsOn(y) then true else if IsOff(y) then false else Enabled(d)
  {
    assert (d + [y])[..|d|] == d;
  }

  lemma BeforeFirstLine(ck: Checker, ls: seq<string>, respect: bool)
    ensures Enabled(ls[..0]) && Offences(ck, ls, respect, 0) == []
  {
  }

  /** One turn of the loop, with the state of the switch before it. */
  lemma TurnFacts(ck: Checker, ls: seq<string>, i: nat, respect: bool, before: bool)
    requires i < |ls| && (respect ==> before == Enabled(ls[..i]))
    ensures var after := if IsOn(ls[i]) then true else if IsOff(ls[i]) then false else before;
            && (respect ==> after == Enabled(ls[..i + 1]))
            && Examined(ls, i, respect) == (!respect || after || IsGuard(ls[i]))
    ensures FixedLine(ck, ls, i, respect)
            == if Examined(ls, i, respect) && !ck.complies(ls[i]) then ck.fix(ls[i]) else ls[i]
    ensures Offences(ck, ls, respect, i + 1)
            == Offences(ck, ls, respect, i) + if Examined(ls, i, respect) && !ck.complies(ls[i]) then [i] else []
  {
    assert ls[..i + 1] == ls[..i] + [ls[i]];
    EnabledSnoc(ls[..i], ls[i]);
    hide IsOn, IsOff, Enabled;
  }

  // ---------- what the pass looks at, in terms of the guards ----------

  /** The six guards, blanks around them aside. */
  lemma GuardTexts(line: string)
    ensures IsOn(line) <==> Strip(line) == "// clang-format on" || Strip(line) == "# cmake-format: on"
                            || Strip(line) == "# fmt: on"
    ensures IsOff(line) <==> Strip(line) == "// clang-format off" || Strip(line) == "# cmake-format: off"
                             || Strip(line) == "# fmt: off"
  {
    hide Trim;
  }

  /** Some guard at or before line i switches checking off, and none after it switches it on again. */
  ghost predicate SwitchedOff(ls: seq<string>, i: nat)
    requires i < |ls|
  {
    exists j :: OffSince(ls, j, i)
  }

  ghost predicate OffSince(ls: seq<string>, j: int, i: int)
    requires i < |ls|
  {
    0 <= j <= i && IsOff(ls[j]) && forall k :: j < k <= i ==> !IsOn(ls[k])
  }

  /** The pass looks at a line if it does not heed guards, if the line is a guard, and if checking is not off. */
  ghost predicate LookedAt(ls: seq<string>, i: nat, respect: bool)
    requires i < |ls|
  {
    !respect || IsGuard(ls[i]) || !SwitchedOff(ls, i)
  }

  lemma OffSinceStep(ls: seq<string>, j: int, i: nat)
    requires i < |ls|
    ensures OffSince(ls, j, i) <==> if j == i then IsOff(ls[i]) else !IsOn(ls[i]) && OffSince(ls, j, i - 1)
  {
    hide IsOn, IsOff;
  }

  lemma OffSinceWithin(ls: seq<string>, j: int, i: int)
    requires i < |ls|
    ensures OffSince(ls, j, i) ==> 0 <= j <= i
  {
    hide IsOn, IsOff;
  }

  lemma SwitchStep(ls: seq<string>, i: nat)
    requires i < |ls|
    ensures SwitchedOff(ls, i)
         == if IsOn(ls[i]) then false else if IsOff(ls[i]) then true else i > 0 && SwitchedOff(ls, i - 1)
  {
    NotBoth(ls[i]);
    hide IsOn, IsOff, OffSince;
    if SwitchedOff(ls, i) {
      var j :| OffSince(ls, j, i);
      OffSinceStep(ls, j, i);
      if j != i {
        OffSinceWithin(ls, j, i - 1);
      }
    }
    if IsOff(ls[i]) {
      OffSinceStep(ls, i, i);
    } else if i > 0 && SwitchedOff(ls, i - 1) && !IsOn(ls[i]) {
      var j :| OffSince(ls, j, i - 1);
      OffSinceWithin(ls, j, i - 1);
      OffSinceStep(ls, j, i);
    }
  }

  lemma {:induction false} EnabledIff(ls: seq<string>, i: nat)
    requires i < |ls|
    ensures Enabled(ls[..i + 1]) <==> !SwitchedOff(ls, i)
  {
    assert Enabled(ls[..0]);
    hide *;
    assert ls[..i + 1] == ls[..i] + [ls[i]];
    EnabledSnoc(ls[..i], ls[i]);
    SwitchStep(ls, i);
    if i > 0 {
      EnabledIff(ls, i - 1);
    }
  }

  lemma ExaminedIff(ls: seq<string>, i: nat, respect: bool)
    requires i < |ls|
    ensures Examined(ls, i, respect) <==> LookedAt(ls, i, respect)
  {
    EnabledIff(ls, i);
    hide Enabled, SwitchedOff, IsGuard;
  }

  /** The new lines: those that the pass looks at and that do not comply are fixed, the others are as before. */
  ghost predicate Rewritten(ck: Checker, ls: seq<string>, respect: bool, lines: seq<string>)
  {
    && |lines| == |ls|
    && forall i :: 0 <= i < |ls| ==>
         lines[i] == if LookedAt(ls, i, respect) && !ck.complies(ls[i]) then ck.fix(ls[i]) else ls[i]
  }

  ghost predicate AllComply(ck: Checker, ls: seq<string>, respect: bool)
  {
    forall i :: 0 <= i < |ls| && LookedAt(ls, i, respect) ==> ck.complies(ls[i])
  }

  /** The numbers of the lines that the pass looks at and that do not comply, in order. */
  ghost predicate Listed(ck: Checker, ls: seq<string>, respect: bool, infos: seq<nat>)
  {
    && (forall i :: i in infos <==> 0 <= i < |ls| && LookedAt(ls, i, respect) && !ck.complies(ls[i]))
    && (forall a, b :: 0 <= a < b < |infos| ==> infos[a] < infos[b])
  }

  lemma PassesIff(ck: Checker, content: string, respect: bool)
    ensures Passes(ck, content, respect) <==> AllComply(ck, ReadLines(content), respect)
  {
    var ls := ReadLines(content);
    hide LookedAt, Examined;
    forall i | 0 <= i < |ls| ensures Examined(ls, i, respect) <==> LookedAt(ls, i, respect) {
      ExaminedIff(ls, i, respect);
    }
    assert forall i :: 0 <= i < |ls| ==>
             (Offends(ck, ls, i, respect) <==> Examined(ls, i, respect) && !ck.complies(ls[i]));
  }

  lemma FixedIsRewritten(ck: Checker, ls: seq<string>, respect: bool)
    ensures Rewritten(ck, ls, respect, Fixed(ck, ls, respect))
  {
    hide LookedAt, Examined;
    forall i | 0 <= i < |ls| ensures Examined(ls, i, respect) <==> LookedAt(ls, i, respect) {
      ExaminedIff(ls, i, respect);
    }
  }

  lemma {:induction false} OffencesListed(ck: Checker, ls: seq<string>, respect: bool, n: nat)
    requires n <= |ls|
    ensures var r := Offences(ck, ls, respect, n);
            && (forall i :: i in r <==> 0 <= i < n && LookedAt(ls, i, respect) && !ck.complies(ls[i]))
            && (forall a, b :: 0 <= a < b < |r| ==> r[a] < r[b])
  {
    hide LookedAt, Examined;
    if n > 0 {
      OffencesListed(ck, ls, respect, n - 1);
      ExaminedIff(ls, n - 1, respect);
      var front := Offences(ck, ls, respect, n - 1);
      forall a | 0 <= a < |front| ensures front[a] < n - 1 {
        assert front[a] in front;
      }
      assert forall i :: i in front + [n - 1] <==> i in front || i == n - 1;
      assert front + [] == front;
    }
  }

  ghost predicate IsRewritten(ck: Checker, ls: seq<string>, respect: bool, content: string)
  {
    exists lines :: Rewritten(ck, ls, respect, lines) && content == Concat(lines)
  }

  /** The verdict, the numbers and the new file of a pass, in these terms. */
  lemma PassMeans(ck: Checker, content: string, respect: bool)
    ensures var ls := ReadLines(content);
            && (Passes(ck, content, respect) <==> AllComply(ck, ls, respect))
            && IsRewritten(ck, ls, respect, Fix(ck, content, respect))
            && Listed(ck, ls, respect, Offences(ck, ls, respect, |ls|))
  {
    PassesIff(ck, content, respect);
    FixedIsRewritten(ck, ReadLines(content), respect);
    OffencesListed(ck, ReadLines(content), respect, |ReadLines(content)|);
    hide LookedAt, Rewritten, Passes, AllComply, Offences;
  }

  class File {
    var content: string

    constructor (content: string)
      ensures this.content == content
    {
      this.content := content;
    }

    /** Checks, and with fix also rewrites, this file. Without fix and verbose it stops at the first offence. */
    method CheckManually(fix: bool, verbose: bool, respect: bool, ck: Checker)
      returns (isFileCompliant: bool, infos: seq<nat>)
      modifies this
      ensures isFileCompliant <==> Passes(ck, old(content), respect)
      ensures content == if fix then Fix(ck, old(content), respect) else old(content)
      ensures isFileCompliant ==> content == old(content)
      ensures var all := Offences(ck, ReadLines(old(content)), respect, |ReadLines(old(content))|);
              infos == if fix || verbose || all == [] then all else all[..1]
      ensures isFileCompliant <==> AllComply(ck, ReadLines(old(content)), respect)
      ensures fix ==> IsRewritten(ck, ReadLines(old(content)), respect, content)
      ensures fix || verbose ==> Listed(ck, ReadLines(old(content)), respect, infos)
    {
      hide IsRewritten, AllComply, Listed;
      PassMeans(ck, content, respect);
      hide IsOn, IsOff, Trim, Enabled, Offences, FixedLine, Examined, Passes;
      isFileCompliant, infos := true, [];
      var clangFormatEnabled := true;
      var lines := ReadLines(content);
      var fileLines := lines;
      var i := 0;
      var stop := false;
      BeforeFirstLine(ck, lines, respect);
      while i < |lines| && !stop
        invariant 0 <= i <= |lines| == |fileLines| && content == old(content)
        invariant respect ==> clangFormatEnabled == Enabled(lines[..i])
        invariant isFileCompliant <==> infos == []
        invariant infos == Offences(ck, lines, respect, i)
        invariant stop ==> !fix && !verbose && |infos| == 1
        invariant !fix && !verbose && !stop ==> infos == []
        invariant forall k :: 0 <= k < i ==> fileLines[k] == FixedLine(ck, lines, k, respect)
        invariant forall k :: i <= k < |lines| ==> fileLines[k] == lines[k]
      {
        var line := lines[i];
        TurnFacts(ck, lines, i, respect, clangFormatEnabled);
        if respect {
          if IsOn(line) {
            clangFormatEnabled := true;
          } else if IsOff(line) {
            clangFormatEnabled := false;
          }
        }
        if !respect || clangFormatEnabled || IsGuard(line) {
          if !ck.complies(line) {
            isFileCompliant := false;
            fileLines := fileLines[i := ck.fix(line)];
            infos := infos + [i];
            if !fix && !verbose {
              stop := true;
            }
          }
        }
        i := i + 1;
      }
      OffencesComplete(ck, lines, respect, i, |lines|);
      OffencesIff(ck, lines, respect, |lines|);
      UnchangedIff(ck, content, respect);
      if fix && !isFileCompliant {
        assert fileLines == Fixed(ck, lines, respect);
        var written := Concat(fileLines);
        content := written;
      }
    }
  }

  lemma {:induction false} OffencesComplete(ck: Checker, ls: seq<string>, respect: bool, i: nat, n: nat)
    requires i <= n <= |ls|
    ensures Offences(ck, ls, respect, i) <= Offences(ck, ls, respect, n)
    decreases n
  {
    if i < n {
      OffencesComplete(ck, ls, respect, i, n - 1);
    }
  }

  lemma {:induction false} OffencesIff(ck: Checker, ls: seq<string>, respect: bool, n: nat)
    requires n <= |ls|
    ensures Offences(ck, ls, respect, n) == [] <==> forall i :: 0 <= i < n ==> !Offends(ck, ls, i, respect)
  {
    if n > 0 {
      OffencesIff(ck, ls, respect, n - 1);
    }
  }

  lemma CleanIsUnchanged(ck: Checker, ls: seq<string>, respect: bool)
    requires Clean(ck, ls, respect)
    ensures Fixed(ck, ls, respect) == ls
  {
    forall i | 0 <= i < |ls| ensures FixedLine(ck, ls, i, respect) == ls[i] {
      assert !Offends(ck, ls, i, respect);
    }
  }

  lemma UnchangedIff(ck: Checker, content: string, respect: bool)
    ensures Passes(ck, content, respect) ==> Fix(ck, content, respect) == content
    ensures Passes(ck, content, respect) <==> Clean(ck, ReadLines(content), respect)
  {
    if Passes(ck, content, respect) {
      CleanIsUnchanged(ck, ReadLines(content), respect);
      ReadLinesJoin(content);
    }
  }

  /** A line inside a region switched off, other than a guard, comes out unchanged. */
  lemma OffRegionUntouched(ck: Checker, ls: seq<string>, i: nat)
    requires i < |ls| && !IsGuard(ls[i]) && !Enabled(ls[..i + 1])
    ensures Fixed(ck, ls, true)[i] == ls[i]
  {
  }

  // ---------- the second pass ----------

  /** A fixed line is one line, with its newline, or nothing at all. */
  ghost predicate KeepsShape(ck: Checker)
  {
    forall x :: IsLine(x) && !ck.complies(x) ==>
      ck.fix(x) == "" || (IsLine(ck.fix(x)) && (Ended(x) ==> Ended(ck.fix(x))))
  }

  ghost predicate FixComplies(ck: Checker)
  {
    forall x :: IsLine(x) && !ck.complies(x) ==> ck.fix(x) == "" || ck.complies(ck.fix(x))
  }

  /** Fixing never spoils an OFF guard; and a fix that ignores guards leaves the stripped text alone. */
  ghost predicate KeepsGuards(ck: Checker, respect: bool)
  {
    forall x :: IsLine(x) && !ck.complies(x) ==>
      (IsOff(x) ==> IsOff(ck.fix(x))) && (!respect ==> Strip(ck.fix(x)) == Strip(x))
  }

  /** What is asked of a line check so that fixing a file makes it pass. */
  ghost predicate Sound(ck: Checker, respect: bool)
  {
    KeepsShape(ck) && FixComplies(ck) && (respect ==> KeepsGuards(ck, respect))
  }

  /** Removing the lines that a fix has emptied. */
  function NonEmpty(ls: seq<string>): seq<string>
  {
    if ls == [] then []
    else if ls[|ls| - 1] == "" then NonEmpty(ls[..|ls| - 1])
    else NonEmpty(ls[..|ls| - 1]) + [ls[|ls| - 1]]
  }

  lemma {:induction false} NonEmptyConcat(ls: seq<string>)
    ensures Concat(NonEmpty(ls)) == Concat(ls)
  {
    if ls != [] {
      var front, last := ls[..|ls| - 1], ls[|ls| - 1];
      NonEmptyConcat(front);
      assert ls == front + [last];
      ConcatSnoc(front, last);
      ConcatSnoc(NonEmpty(front), last);
    }
  }

  lemma FixedLineFront(ck: Checker, ls: seq<string>, n: nat, i: nat, respect: bool)
    requires i < n <= |ls|
    ensures Examined(ls[..n], i, respect) == Examined(ls, i, respect)
    ensures FixedLine(ck, ls[..n], i, respect) == FixedLine(ck, ls, i, respect)
  {
    hide Enabled, IsGuard;
    assert ls[..n][..i + 1] == ls[..i + 1];
  }

  lemma FixedFront(ck: Checker, ls: seq<string>, respect: bool)
    requires ls != []
    ensures Fixed(ck, ls, respect)[..|ls| - 1] == Fixed(ck, ls[..|ls| - 1], respect)
  {
    hide FixedLine;
    var n := |ls| - 1;
    forall i | 0 <= i < n ensures FixedLine(ck, ls, i, respect) == FixedLine(ck, ls[..n], i, respect) {
      FixedLineFront(ck, ls, n, i, respect);
    }
  }

  lemma FixedLineShape(ck: Checker, ls: seq<string>, i: nat, respect: bool)
    requires FileLines(ls) && KeepsShape(ck) && i < |ls|
    ensures var y := FixedLine(ck, ls, i, respect); y == "" || (IsLine(y) && (Ended(ls[i]) ==> Ended(y)))
    ensures i < |ls| - 1 ==> Ended(ls[i])
  {
    hide Examined;
    assert IsLine(ls[i]);
  }

  /** The lines the next pass reads are the fixed lines that are left. */
  lemma {:induction false} NonEmptyLines(ck: Checker, ls: seq<string>, respect: bool)
    requires FileLines(ls) && KeepsShape(ck)
    ensures FileLines(NonEmpty(Fixed(ck, ls, respect)))
    ensures (ls == [] || Ended(ls[|ls| - 1])) ==>
              var d := NonEmpty(Fixed(ck, ls, respect)); d == [] || Ended(d[|d| - 1])
  {
    hide FixedLine, KeepsShape, Ended, IsLine;
    if ls != [] {
      var n := |ls| - 1;
      NonEmptyLines(ck, ls[..n], respect);
      FixedFront(ck, ls, respect);
      FixedLineShape(ck, ls, n, respect);
      if n > 0 {
        FixedLineShape(ck, ls, n - 1, respect);
      }
    }
  }

  /** Every line that check a looks at complies with it once b has fixed it. */
  ghost predicate FixedFormsComply(a: Checker, ra: bool, b: Checker, rb: bool, ls: seq<string>)
  {
    forall i :: 0 <= i < |ls| && Examined(ls, i, ra) ==>
      FixedLine(b, ls, i, rb) == "" || a.complies(FixedLine(b, ls, i, rb))
  }

  lemma FixedFormsFront(a: Checker, ra: bool, b: Checker, rb: bool, ls: seq<string>)
    requires ls != [] && FileLines(ls) && FixedFormsComply(a, ra, b, rb, ls)
    ensures FileLines(ls[..|ls| - 1]) && FixedFormsComply(a, ra, b, rb, ls[..|ls| - 1])
  {
    hide Examined, FixedLine;
    var front := ls[..|ls| - 1];
    forall i | 0 <= i < |front|
      ensures Examined(front, i, ra) == Examined(ls, i, ra)
      ensures FixedLine(b, front, i, rb) == FixedLine(b, ls, i, rb)
    {
      FixedLineFront(b, ls, |front|, i, ra);
      FixedLineFront(b, ls, |front|, i, rb);
    }
  }

  /** After the fix, checking is on at most where it was on before, although a fix may have made new guards; so a
      check passes as soon as the fixed form of every line it looked at complies with it. */
  lemma {:induction false} RegionShrinks(a: Checker, ra: bool, b: Checker, rb: bool, ls: seq<string>)
    requires FileLines(ls) && (ra ==> KeepsGuards(b, rb)) && FixedFormsComply(a, ra, b, rb, ls)
    ensures Clean(a, NonEmpty(Fixed(b, ls, rb)), ra)
    ensures ra && Enabled(NonEmpty(Fixed(b, ls, rb))) ==> Enabled(ls)
  {
    if ls != [] {
      var n := |ls| - 1;
      var y := FixedLine(b, ls, n, rb);
      assert Examined(ls, n, ra) ==> y == "" || a.complies(y);
      hide *;
      FixedFormsFront(a, ra, b, rb, ls);
      RegionShrinks(a, ra, b, rb, ls[..n]);
      NonEmptyFixedSnoc(b, ls, rb);
      var d := NonEmpty(Fixed(b, ls[..n], rb));
      if y != "" {
        assert ls == ls[..n] + [ls[n]];
        LastLine(a, ra, b, rb, ls[..n], ls[n], d, y);
        CleanSnoc(a, ra, d, y);
      } else {
        VanishedLine(a, ra, b, rb, ls);
      }
    } else {
      NothingRead(a, ra, b, rb);
    }
  }

  lemma NothingRead(a: Checker, ra: bool, b: Checker, rb: bool)
    ensures Clean(a, NonEmpty(Fixed(b, [], rb)), ra) && Enabled([])
  {
    assert Fixed(b, [], rb) == [];
  }

  lemma NonEmptyFixedSnoc(b: Checker, ls: seq<string>, rb: bool)
    requires ls != []
    ensures var d := NonEmpty(Fixed(b, ls[..|ls| - 1], rb)); var y := FixedLine(b, ls, |ls| - 1, rb);
            NonEmpty(Fixed(b, ls, rb)) == if y == "" then d else d + [y]
  {
    hide FixedLine;
    FixedFront(b, ls, rb);
  }

  lemma CleanSnoc(a: Checker, ra: bool, d: seq<string>, y: string)
    requires Clean(a, d, ra) && (Examined(d + [y], |d|, ra) ==> a.complies(y))
    ensures Clean(a, d + [y], ra)
  {
    hide Enabled, IsGuard;
    forall i | 0 <= i < |d| ensures !Offends(a, d + [y], i, ra) {
      assert (d + [y])[..i + 1] == d[..i + 1];
      assert !Offends(a, d, i, ra);
    }
  }

  lemma VanishedLine(a: Checker, ra: bool, b: Checker, rb: bool, ls: seq<string>)
    requires ls != [] && FileLines(ls) && (ra ==> KeepsGuards(b, rb)) && FixedLine(b, ls, |ls| - 1, rb) == ""
    ensures ra && Enabled(ls[..|ls| - 1]) ==> Enabled(ls)
  {
    hide IsOn, IsOff;
    var x := ls[|ls| - 1];
    NotBoth("");
    assert IsLine(x);
  }

  /** What a fix can do to the guard in a line. */
  lemma GuardAfterFix(ra: bool, b: Checker, rb: bool, ls: seq<string>)
    requires ls != [] && FileLines(ls) && ra && KeepsGuards(b, rb)
    ensures var x, y := ls[|ls| - 1], FixedLine(b, ls, |ls| - 1, rb);
            && (IsOff(x) ==> IsOff(y))
            && (x == y || Examined(ls, |ls| - 1, true) || (IsOn(x) == IsOn(y) && IsOff(x) == IsOff(y)))
  {
    assert IsLine(ls[|ls| - 1]);
    hide Trim, Enabled;
  }

  lemma ExaminedLast(d: seq<string>, y: string, respect: bool)
    ensures Examined(d + [y], |d|, respect) == (!respect || IsGuard(y) || Enabled(d + [y]))
  {
    assert (d + [y])[..|d| + 1] == d + [y];
  }

  /** Line x of the file, after the lines in front, has become y, after the lines d that are left of them. */
  lemma LastLine(a: Checker, ra: bool, b: Checker, rb: bool, front: seq<string>, x: string, d: seq<string>, y: string)
    requires FileLines(front + [x]) && (ra ==> KeepsGuards(b, rb)) && (ra && Enabled(d) ==> Enabled(front))
    requires y == FixedLine(b, front + [x], |front|, rb)
    requires Examined(front + [x], |front|, ra) ==> a.complies(y)
    ensures Examined(d + [y], |d|, ra) ==> a.complies(y)
    ensures ra && Enabled(d + [y]) ==> Enabled(front + [x])
  {
    hide IsOn, IsOff, Trim, Enabled, FixedLine, KeepsGuards, FileLines, Examined;
    ExaminedLast(d, y, ra);
    ExaminedLast(front, x, ra);
    if ra {
      ExaminedLast(front, x, true);
      EnabledSnoc(d, y);
      EnabledSnoc(front, x);
      NotBoth(x);
      NotBoth(y);
      GuardAfterFix(ra, b, rb, front + [x]);
    }
  }

  /** Fixing a file and checking it again finds nothing, and fixing it again changes nothing. */
  lemma FixThenCheckPasses(ck: Checker, content: string, respect: bool)
    requires Sound(ck, respect)
    ensures Passes(ck, Fix(ck, content, respect), respect)
    ensures Fix(ck, Fix(ck, content, respect), respect) == Fix(ck, content, respect)
  {
    hide FixedLine, Examined, KeepsGuards;
    var ls := ReadLines(content);
    ReadLinesJoin(content);
    forall i | 0 <= i < |ls| && Examined(ls, i, respect)
      ensures var y := FixedLine(ck, ls, i, respect); y == "" || ck.complies(y)
    {
      FixedLineComplies(ck, ls, i, respect);
    }
    RegionShrinks(ck, respect, ck, respect, ls);
    SecondPassReads(ck, content, respect);
    var d := NonEmpty(Fixed(ck, ls, respect));
    CleanIsUnchanged(ck, d, respect);
    ReadLinesJoin(Fix(ck, content, respect));
  }

  lemma FixedLineComplies(ck: Checker, ls: seq<string>, i: nat, respect: bool)
    requires i < |ls| && IsLine(ls[i]) && FixComplies(ck) && Examined(ls, i, respect)
    ensures FixedLine(ck, ls, i, respect) == "" || ck.complies(FixedLine(ck, ls, i, respect))
  {
  }

  lemma SecondPassReads(ck: Checker, content: string, respect: bool)
    requires KeepsShape(ck)
    ensures ReadLines(Fix(ck, content, respect)) == NonEmpty(Fixed(ck, ReadLines(content), respect))
  {
    hide FixedLine, KeepsShape;
    var ls := ReadLines(content);
    ReadLinesJoin(content);
    NonEmptyLines(ck, ls, respect);
    NonEmptyConcat(Fixed(ck, ls, respect));
    ReadLinesOfConcat(NonEmpty(Fixed(ck, ls, respect)));
  }

  /** A fix by b does not break compliance with a. */
  ghost predicate Respects(a: Checker, b: Checker)
  {
    forall x :: IsLine(x) && a.complies(x) && !b.complies(x) ==> b.fix(x) == "" || a.complies(b.fix(x))
  }

  /** Passing one check survives fixing another one, if line by line the second fix keeps the first check. */
  lemma PassingSurvives(a: Checker, ra: bool, b: Checker, rb: bool, content: string)
    requires Passes(a, content, ra) && KeepsShape(b) && (ra ==> KeepsGuards(b, rb)) && Respects(a, b)
    ensures Passes(a, Fix(b, content, rb), ra)
  {
    var ls := ReadLines(content);
    ReadLinesJoin(content);
    hide Enabled, IsGuard, KeepsGuards, KeepsShape;
    forall i | 0 <= i < |ls| && Examined(ls, i, ra)
      ensures var y := FixedLine(b, ls, i, rb); y == "" || a.complies(y)
    {
      assert !Offends(a, ls, i, ra) && IsLine(ls[i]);
    }
    RegionShrinks(a, ra, b, rb, ls);
    SecondPassReads(b, content, rb);
  }

  lemma {:induction false} NonEmptyAt(ls: seq<string>, i: nat)
    requires i < |ls| && ls[i] != ""
    ensures |NonEmpty(ls[..i])| < |NonEmpty(ls)| && NonEmpty(ls)[|NonEmpty(ls[..i])|] == ls[i]
    decreases |ls|
  {
    var n := |ls| - 1;
    if i < n {
      NonEmptyAt(ls[..n], i);
      assert ls[..n][..i] == ls[..i];
    }
  }

  /** In the file: a line in a region switched off, other than a guard, is read back unchanged after the fix, at the
      place where the lines before it leave it. */
  lemma OffRegionInFile(ck: Checker, content: string, i: nat)
    requires KeepsShape(ck) && i < |ReadLines(content)|
    requires !IsGuard(ReadLines(content)[i]) && !Enabled(ReadLines(content)[..i + 1])
    ensures var k := |NonEmpty(Fixed(ck, ReadLines(content), true)[..i])|;
            && k < |ReadLines(Fix(ck, content, true))|
            && ReadLines(Fix(ck, content, true))[k] == ReadLines(content)[i]
  {
    var ls := ReadLines(content);
    OffRegionUntouched(ck, ls, i);
    SecondPassReads(ck, content, true);
    ReadLinesJoin(content);
    hide KeepsShape, Enabled, IsGuard, FixedLine, Fix;
    assert IsLine(ls[i]);
    NonEmptyAt(Fixed(ck, ls, true), i);
  }
}
