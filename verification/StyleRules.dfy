/** What the trailing-whitespace and tab checks look for, what their fixes write, and
    why a fixed file is clean. */
module StyleRules {
  import opened StyleText

  // ---------- trailing white space ----------

  function TrimmedLine(l: string): string {
    RStrip(l) + "\n"
  }

  function TrimmedLines(ls: seq<string>): (r: seq<string>)
    ensures |r| == |ls| && forall i :: 0 <= i < |ls| ==> r[i] == TrimmedLine(ls[i])
  {
    seq(|ls|, i requires 0 <= i < |ls| => TrimmedLine(ls[i]))
  }

  ghost predicate HasTrailing(ls: seq<string>) {
    exists i :: 0 <= i < |ls| && TrimmedLine(ls[i]) != ls[i]
  }

  /** A line is clean when it is terminated and its text does not end in white space. */
  lemma CleanLineMeaning(l: string)
    ensures TrimmedLine(l) == l <==> Terminated(l) && RightTight(l[..|l|-1])
  {
    if Terminated(l) && RightTight(l[..|l|-1]) {
      assert l == l[..|l|-1] + "\n";
      RStripUnique(l[..|l|-1], "\n");
    }
    if TrimmedLine(l) == l {
      assert l[..|l|-1] == RStrip(l);
    }
  }

  lemma TrimmedLineClean(l: string)
    ensures TrimmedLine(TrimmedLine(l)) == TrimmedLine(l)
  {
    RStripUnique(RStrip(l), "\n");
  }

  /** Fixing twice changes nothing more, and a fixed file passes the check. */
  lemma TrimmedLinesClean(ls: seq<string>)
    ensures !HasTrailing(TrimmedLines(ls))
    ensures TrimmedLines(TrimmedLines(ls)) == TrimmedLines(ls)
  {
    forall i | 0 <= i < |ls|
      ensures TrimmedLine(TrimmedLines(ls)[i]) == TrimmedLines(ls)[i]
    {
      TrimmedLineClean(ls[i]);
    }
  }

  lemma TrimmedLinesOk(ls: seq<string>)
    requires LinesOk(ls)
    ensures LinesOk(TrimmedLines(ls))
  {
    forall i | 0 <= i < |ls|
      ensures LineOk(TrimmedLines(ls)[i])
    {
      TrimmedLineOk(ls[i]);
    }
  }

  lemma TrimmedLineOk(l: string)
    requires LineOk(l)
    ensures LineOk(TrimmedLine(l))
  {
    var r := RStrip(l);
    if |r| == |l| && r != "" {
      assert r[|r|-1] != '\n';
    }
    assert forall k :: 0 <= k < |r| ==> r[k] == l[k];
  }

  // ---------- clang-format guards ----------

  const GUARD_ON := "// clang-format on"
  const GUARD_OFF := "// clang-format off"

  /** What a line means to the tab check. */
  datatype Kind = On | Off | Ordinary

  function KindOf(l: string): Kind {
    if Strip(l) == GUARD_ON then On else if Strip(l) == GUARD_OFF then Off else Ordinary
  }

  function Kinds(ls: seq<string>): (r: seq<Kind>)
    ensures |r| == |ls| && forall i :: 0 <= i < |ls| ==> r[i] == KindOf(ls[i])
  {
    seq(|ls|, i requires 0 <= i < |ls| => KindOf(ls[i]))
  }

  /** Whether formatting is enabled after the first `i` lines. */
  function EnabledAfter(ks: seq<Kind>, i: nat): bool
    requires i <= |ks|
  {
    if i == 0 then true
    else match ks[i-1]
      case On => true
      case Off => false
      case Ordinary => EnabledAfter(ks, i - 1)
  }

  /** Formatting is off exactly when there is an `off` guard with no `on` guard after it. */
  lemma {:induction false} EnabledMeaning(ks: seq<Kind>, i: nat)
    requires i <= |ks|
    ensures !EnabledAfter(ks, i) <==> exists k :: 0 <= k < i && ks[k] == Off && forall m :: k < m < i ==> ks[m] != On
  {
    if i > 0 {
      EnabledMeaning(ks, i - 1);
      if ks[i-1] == Ordinary && !EnabledAfter(ks, i - 1) {
        var k :| 0 <= k < i - 1 && ks[k] == Off && forall m :: k < m < i - 1 ==> ks[m] != On;
        assert forall m :: k < m < i ==> ks[m] != On;
      }
    }
  }

  /** The lines the tab check looks at: the enabled ones and the guards themselves. */
  predicate Checked(ks: seq<Kind>, i: nat)
    requires i < |ks|
  {
    EnabledAfter(ks, i + 1) || ks[i] != Ordinary
  }

  /** Guards stay guards, and lines that are not looked at keep their meaning. */
  ghost predicate Follows(ks: seq<Kind>, ks': seq<Kind>) {
    |ks'| == |ks| && forall i :: 0 <= i < |ks| ==> ks[i] != Ordinary || !Checked(ks, i) ==> ks'[i] == ks[i]
  }

  /** Guards created by a fix can only switch formatting off: what is enabled afterwards
      was enabled before, and what is looked at afterwards was looked at before. */
  lemma {:induction false} FixNeverEnables(ks: seq<Kind>, ks': seq<Kind>, i: nat)
    requires Follows(ks, ks') && i <= |ks|
    ensures EnabledAfter(ks', i) ==> EnabledAfter(ks, i)
    ensures i > 0 && Checked(ks', i - 1) ==> Checked(ks, i - 1)
  {
    if i > 0 {
      FixNeverEnables(ks, ks', i - 1);
    }
  }

  /** An `off` guard stands before line `i`, and no `on` guard in between. */
  ghost predicate Shielded(ls: seq<string>, i: nat)
    requires i <= |ls|
  {
    exists k :: 0 <= k < i && Strip(ls[k]) == GUARD_OFF && forall m :: k < m < i ==> Strip(ls[m]) != GUARD_ON
  }

  /** A line is looked at exactly if it is a guard itself or not shielded by one. */
  lemma CheckedMeaning(ls: seq<string>, i: nat)
    requires i < |ls|
    ensures Checked(Kinds(ls), i) <==> Strip(ls[i]) == GUARD_ON || Strip(ls[i]) == GUARD_OFF || !Shielded(ls, i)
  {
    hide Strip;
    var ks := Kinds(ls);
    EnabledMeaning(ks, i);
    GuardTexts();
    hide EnabledAfter;
    assert forall k :: 0 <= k < |ls| ==> (ks[k] == Off <==> Strip(ls[k]) == GUARD_OFF);
    assert forall k :: 0 <= k < |ls| ==> (ks[k] == On <==> Strip(ls[k]) == GUARD_ON);
    EnabledNow(ks, i);
  }

  lemma EnabledNow(ks: seq<Kind>, i: nat)
    requires i < |ks|
    ensures ks[i] == Ordinary ==> EnabledAfter(ks, i + 1) == EnabledAfter(ks, i)
  {
  }

  // ---------- tabs ----------

  ghost predicate HasTabs(ls: seq<string>) {
    exists i :: 0 <= i < |ls| && Checked(Kinds(ls), i) && '\t' in ls[i]
  }

  function ExpandedLines(ls: seq<string>): (r: seq<string>)
    ensures |r| == |ls|
    ensures forall i :: 0 <= i < |ls| ==> r[i] == if Checked(Kinds(ls), i) then Expand(ls[i], 0) else ls[i]
  {
    seq(|ls|, i requires 0 <= i < |ls| => if Checked(Kinds(ls), i) then Expand(ls[i], 0) else ls[i])
  }

  lemma GuardTexts()
    ensures '\t' !in GUARD_ON && '\t' !in GUARD_OFF && GUARD_ON != GUARD_OFF
    ensures Tight(GUARD_ON) && Tight(GUARD_OFF)
  {
    assert |GUARD_ON| != |GUARD_OFF|;
  }

  /** A guard stays the same guard when its tabs are expanded. */
  lemma GuardSurvives(l: string)
    ensures KindOf(l) != Ordinary ==> KindOf(Expand(l, 0)) == KindOf(l)
  {
    GuardTexts();
    if KindOf(l) != Ordinary {
      StripExpand(l, 0);
    }
  }

  lemma ExpansionFollows(ls: seq<string>)
    ensures Follows(Kinds(ls), Kinds(ExpandedLines(ls)))
  {
    forall i | 0 <= i < |ls| && (KindOf(ls[i]) != Ordinary || !Checked(Kinds(ls), i))
      ensures KindOf(ExpandedLines(ls)[i]) == KindOf(ls[i])
    {
      GuardSurvives(ls[i]);
    }
  }

  /** A line the second pass looks at has no tab left. */
  lemma FixedCheckedHasNoTab(ls: seq<string>, i: nat)
    requires i < |ls|
    ensures Checked(Kinds(ExpandedLines(ls)), i) ==> '\t' !in ExpandedLines(ls)[i]
  {
    ExpandChars(ls[i], 0);
    ExpansionFollows(ls);
    FixNeverEnables(Kinds(ls), Kinds(ExpandedLines(ls)), i + 1);
  }

  /** After the tab fix a second check reports nothing and a second fix changes nothing. */
  lemma ExpandedLinesClean(ls: seq<string>)
    ensures !HasTabs(ExpandedLines(ls))
    ensures ExpandedLines(ExpandedLines(ls)) == ExpandedLines(ls)
  {
    var r := ExpandedLines(ls);
    forall i | 0 <= i < |r| && Checked(Kinds(r), i)
      ensures '\t' !in r[i] && Expand(r[i], 0) == r[i]
    {
      FixedCheckedHasNoTab(ls, i);
      ExpandIdentity(r[i], 0);
    }
  }

  /** The fix changes a file exactly when the check finds a tab. */
  lemma ExpandedLinesChange(ls: seq<string>)
    ensures ExpandedLines(ls) != ls <==> HasTabs(ls)
  {
    forall i | 0 <= i < |ls|
      ensures Expand(ls[i], 0) == ls[i] <==> '\t' !in ls[i]
    {
      ExpandIdentity(ls[i], 0);
    }
    if HasTabs(ls) {
      var i :| 0 <= i < |ls| && Checked(Kinds(ls), i) && '\t' in ls[i];
      assert ExpandedLines(ls)[i] != ls[i];
    }
  }

  lemma ExpandedLinesOk(ls: seq<string>)
    requires LinesOk(ls)
    ensures LinesOk(ExpandedLines(ls))
  {
    forall i | 0 <= i < |ls|
      ensures LineOk(ExpandedLines(ls)[i])
      ensures Terminated(ls[i]) ==> Terminated(ExpandedLines(ls)[i])
    {
      ExpandedLineOk(ls[i]);
    }
  }

  lemma SplitTerminated(l: string)
    requires Terminated(l)
    ensures l == l[..|l|-1] + "\n"
  {
  }

  lemma ExpandThenNewline(t: string)
    ensures Expand(t + "\n", 0) == Expand(t, 0) + "\n"
  {
    hide Expand, ColumnAfter;
    ExpandAppend(t, "\n", 0);
    ExpandIdentity("\n", ColumnAfter(t, 0));
  }

  /** Expansion works on the text of a line and keeps its terminator. */
  lemma ExpandTerminated(l: string)
    requires Terminated(l)
    ensures Expand(l, 0) == Expand(l[..|l|-1], 0) + "\n"
  {
    hide Expand;
    SplitTerminated(l);
    ExpandThenNewline(l[..|l|-1]);
  }

  lemma ExpandedLineOk(l: string)
    requires LineOk(l)
    ensures LineOk(Expand(l, 0))
    ensures Terminated(l) ==> Terminated(Expand(l, 0))
  {
    ExpandChars(l, 0);
    if Terminated(l) {
      ExpandTerminated(l);
      ExpandChars(l[..|l|-1], 0);
    }
  }

  lemma {:induction false} ColumnOfPlain(s: string, col: nat)
    requires '\t' !in s && '\n' !in s && '\r' !in s
    ensures ColumnAfter(s, col) == col + |s|
    decreases |s|
  {
    if s != "" {
      assert s[0] in s;
      ColumnOfPlain(s[1..], col + 1);
    }
  }

  /** A tab at column 3 becomes a single blank. */
  lemma TabAtColumnThree(lead: string, tail: string)
    requires |lead| == 3 && '\t' !in lead && '\n' !in lead && '\r' !in lead && '\t' !in tail
    ensures Expand(lead + ("\t" + tail), 0) == lead + (" " + tail)
  {
    ExpandAppend(lead, "\t" + tail, 0);
    ExpandIdentity(lead, 0);
    ColumnOfPlain(lead, 0);
    assert ("\t" + tail)[0] == '\t' && ("\t" + tail)[1..] == tail;
    ExpandIdentity(tail, 4);
    assert Spaces(1) == " ";
  }

  const GUARD_TAIL := "clang-format off"

  lemma GuardOffParts()
    ensures GUARD_OFF == "//" + (" " + GUARD_TAIL)
    ensures '\t' !in GUARD_TAIL && Tight("//" + ("\t" + GUARD_TAIL))
  {
  }

  lemma StripBlankBefore(m: string)
    requires Tight(m)
    ensures Strip(" " + m) == m
  {
    StripUnique(" ", m, "");
    assert " " + m + "" == " " + m;
  }

  /** Expansion can turn a line that is no guard into one. */
  lemma ExpansionCanMakeGuard()
    ensures KindOf(" " + ("//" + ("\t" + GUARD_TAIL))) == Ordinary
    ensures KindOf(Expand(" " + ("//" + ("\t" + GUARD_TAIL)), 0)) == Off
  {
    hide Expand, Strip;
    GuardOffParts();
    GuardTexts();
    var m := "//" + ("\t" + GUARD_TAIL);
    StripBlankBefore(m);
    assert m[2] == '\t' && '\t' in m;
    TabAtColumnThree(" " + "//", GUARD_TAIL);
    assert " " + m == (" " + "//") + ("\t" + GUARD_TAIL);
    assert (" " + "//") + (" " + GUARD_TAIL) == " " + GUARD_OFF;
    StripBlankBefore(GUARD_OFF);
  }

  /** The text `m` is shown like `g` from column `col` on, with tabs as wide as the single
      blanks they stand for. */
  ghost predicate Reads(m: string, g: string, col: nat) {
    && |m| == |g|
    && forall k :: 0 <= k < |m| ==>
         m[k] == g[k] || (m[k] == '\t' && g[k] == ' ' && (col + k) % TAB_SIZE == TAB_SIZE - 1)
  }

  /** A text with no tabs, no line breaks and no two blanks in a row. */
  ghost predicate SingleBlanks(g: string) {
    && '\t' !in g && '\n' !in g && '\r' !in g
    && forall k :: 0 <= k < |g| - 1 ==> g[k] != ' ' || g[k+1] != ' '
  }

  lemma {:induction false} ExpandReads(m: string, g: string, col: nat)
    requires SingleBlanks(g)
    ensures Expand(m, col) == g <==> Reads(m, g, col)
    decreases |m|
  {
    if m == "" {
    } else if g == "" {
      ExpandChars(m, col);
    } else {
      assert forall k :: 0 <= k < |g[1..]| ==> g[1..][k] == g[k+1];
      ExpandReads(m[1..], g[1..], col + 1);
      ReadsStep(m, g, col);
      ExpandStep(m, g, col);
    }
  }

  lemma ReadsStep(m: string, g: string, col: nat)
    requires m != "" && g != ""
    ensures Reads(m, g, col)
       <==> (m[0] == g[0] || (m[0] == '\t' && g[0] == ' ' && col % TAB_SIZE == TAB_SIZE - 1))
            && Reads(m[1..], g[1..], col + 1)
  {
    if Reads(m[1..], g[1..], col + 1) {
      forall k | 1 <= k < |m| && m[k] != g[k]
        ensures m[k] == '\t' && g[k] == ' ' && (col + k) % TAB_SIZE == TAB_SIZE - 1
      {
        assert m[1..][k-1] != g[1..][k-1];
      }
    }
    if Reads(m, g, col) {
      assert forall k :: 0 <= k < |m| - 1 ==> m[1..][k] == m[k+1] && g[1..][k] == g[k+1];
    }
  }

  lemma ExpandStep(m: string, g: string, col: nat)
    requires m != "" && g != "" && SingleBlanks(g)
    ensures Expand(m, col) == g
       <==> (m[0] == g[0] || (m[0] == '\t' && g[0] == ' ' && col % TAB_SIZE == TAB_SIZE - 1))
            && Expand(m[1..], col + 1) == g[1..]
  {
    var e := Expand(m, col);
    assert g == [g[0]] + g[1..];
    assert g[0] in g;
    if m[0] == '\t' {
      var n := TabStop(col) - col;
      var rest := Expand(m[1..], TabStop(col));
      assert e == Spaces(n) + rest;
      if n == 1 {
        assert e[0] == ' ' && e[1..] == rest;
      } else {
        assert e[0] == ' ' && e[1] == ' ';
      }
    } else {
      assert e[0] == m[0] && e[1..] == Expand(m[1..], NextColumn(m[0], col));
    }
  }

  lemma GuardBlanks()
    ensures SingleBlanks(GUARD_ON) && SingleBlanks(GUARD_OFF)
    ensures |GUARD_ON| == 18 && forall k :: 0 <= k < 18 ==> (GUARD_ON[k] == ' ' <==> k == 2 || k == 15)
    ensures |GUARD_OFF| == 19 && forall k :: 0 <= k < 19 ==> (GUARD_OFF[k] == ' ' <==> k == 2 || k == 15)
  {
  }

  /** The two ways to write a guard `g` with a tab that is as wide as a blank: behind the
      slashes, or before the last word. */
  predicate TabGuard(m: string, g: string, col: nat)
    requires |g| > 15
  {
    || (m == g[2 := '\t'] && col % TAB_SIZE == 1)
    || (m == g[15 := '\t'] && col % TAB_SIZE == 0)
  }

  lemma ReadsGuard(m: string, g: string, col: nat)
    requires |g| > 15 && forall k :: 0 <= k < |g| ==> (g[k] == ' ' <==> k == 2 || k == 15)
    ensures Reads(m, g, col) <==> m == g || TabGuard(m, g, col)
  {
    hide TabGuard;
    TabColumns(col);
    if Reads(m, g, col) {
      assert forall k :: 0 <= k < |m| && k != 2 && k != 15 ==> m[k] == g[k];
      TabGuardAt(m, g, col);
    }
    if TabGuard(m, g, col) {
      TabGuardAt(m, g, col);
    }
  }

  lemma TabColumns(col: nat)
    ensures (col + 2) % TAB_SIZE == TAB_SIZE - 1 <==> col % TAB_SIZE == 1
    ensures (col + 15) % TAB_SIZE == TAB_SIZE - 1 <==> col % TAB_SIZE == 0
  {
  }

  /** The tab guards position by position. */
  lemma TabGuardAt(m: string, g: string, col: nat)
    requires |g| > 15
    ensures TabGuard(m, g, col)
       <==> && |m| == |g| && (forall k :: 0 <= k < |m| && k != 2 && k != 15 ==> m[k] == g[k])
            && ((m[2] == '\t' && m[15] == g[15] && col % TAB_SIZE == 1)
                || (m[15] == '\t' && m[2] == g[2] && col % TAB_SIZE == 0))
  {
    if |m| == |g| && forall k :: 0 <= k < |m| && k != 2 && k != 15 ==> m[k] == g[k] {
      assert m[2] == '\t' && m[15] == g[15] ==> m == g[2 := '\t'];
      assert m[15] == '\t' && m[2] == g[2] ==> m == g[15 := '\t'];
    }
  }

  /** Expansion turns a line that is no guard into one exactly when its text is a guard with
      a tab behind the slashes, at a column 3 mod 4, or such a tab before the last word. */
  lemma GuardMadeIff(l: string)
    ensures
      var m, col := Strip(l), ColumnAfter(LeadOf(l), 0);
      && |GUARD_ON| > 15 && |GUARD_OFF| > 15
      && (KindOf(l) == Ordinary && KindOf(Expand(l, 0)) == On <==> TabGuard(m, GUARD_ON, col))
      && (KindOf(l) == Ordinary && KindOf(Expand(l, 0)) == Off <==> TabGuard(m, GUARD_OFF, col))
  {
    hide Expand, Strip, ColumnAfter, LeadOf, SingleBlanks, Reads, TabGuard;
    var m, col := Strip(l), ColumnAfter(LeadOf(l), 0);
    GuardBlanks();
    StripExpand(l, 0);
    ExpandReads(m, GUARD_ON, col);
    ExpandReads(m, GUARD_OFF, col);
    ReadsGuard(m, GUARD_ON, col);
    ReadsGuard(m, GUARD_OFF, col);
    TabGuardTab(m, GUARD_ON, col);
    TabGuardTab(m, GUARD_OFF, col);
    GuardTexts();
  }

  lemma TabGuardTab(m: string, g: string, col: nat)
    requires |g| > 15
    ensures TabGuard(m, g, col) ==> '\t' in m
  {
    if TabGuard(m, g, col) {
      assert m[2] == '\t' || m[15] == '\t';
    }
  }

  // ---------- both checks together ----------

  lemma {:induction false} ExpandTight(s: string, col: nat)
    requires RightTight(s)
    ensures RightTight(Expand(s, col))
  {
    if s != "" {
      var last := s[|s|-1];
      assert s == s[..|s|-1] + [last];
      ExpandAppend(s[..|s|-1], [last], col);
      ExpandIdentity([last], ColumnAfter(s[..|s|-1], col));
    }
  }

  /** Expanding the tabs of a line without trailing white space introduces none. */
  lemma ExpandKeepsClean(l: string)
    requires TrimmedLine(l) == l
    ensures TrimmedLine(Expand(l, 0)) == Expand(l, 0)
  {
    CleanLineMeaning(l);
    ExpandTerminated(l);
    ExpandTight(l[..|l|-1], 0);
    var r := Expand(l[..|l|-1], 0);
    assert (r + "\n")[..|r + "\n"|-1] == r;
    CleanLineMeaning(r + "\n");
  }

  lemma ExpandedLinesKeepClean(ls: seq<string>)
    requires !HasTrailing(ls)
    ensures !HasTrailing(ExpandedLines(ls))
  {
    forall i | 0 <= i < |ls|
      ensures TrimmedLine(ExpandedLines(ls)[i]) == ExpandedLines(ls)[i]
    {
      assert TrimmedLine(ls[i]) == ls[i];
      ExpandKeepsClean(ls[i]);
    }
  }

  // ---------- what the white space fix cuts off ----------

  predicate Printable(c: char) {
    '!' <= c <= '~'
  }

  /** The printable ASCII characters of a line, in order. */
  function PrintableOf(s: string): string {
    if s == "" then "" else (if Printable(s[0]) then [s[0]] else []) + PrintableOf(s[1..])
  }

  lemma {:induction false} PrintableAppend(s: string, t: string)
    ensures PrintableOf(s + t) == PrintableOf(s) + PrintableOf(t)
  {
    hide Printable;
    if s == "" {
      assert s + t == t;
    } else {
      assert (s + t)[0] == s[0] && (s + t)[1..] == s[1..] + t;
      PrintableAppend(s[1..], t);
    }
  }

  lemma {:induction false} NothingPrintable(s: string)
    requires AllSpace(s)
    ensures PrintableOf(s) == ""
  {
    if s != "" {
      SpaceList(s[0]);
      NothingPrintable(s[1..]);
    }
  }

  ghost predicate BlanksAndTabs(s: string) {
    forall k :: 0 <= k < |s| ==> s[k] == ' ' || s[k] == '\t'
  }

  lemma {:induction false} InkEmptyIff(s: string)
    ensures Ink(s) == "" <==> BlanksAndTabs(s)
  {
    if s != "" {
      InkEmptyIff(s[1..]);
      assert forall k :: 0 <= k < |s| - 1 ==> s[1..][k] == s[k+1];
    }
  }

  /** Trimming keeps the printable characters of every line. */
  lemma TrimKeepsPrintable(l: string)
    ensures PrintableOf(TrimmedLine(l)) == PrintableOf(l)
  {
    var r := RStrip(l);
    var tail := l[|r|..];
    hide PrintableOf, RStrip, IsSpace;
    assert l == r + tail;
    PrintableAppend(r, tail);
    NothingPrintable(tail);
    PrintableAppend(r, "\n");
    NewlineIsSpace();
    NothingPrintable("\n");
  }

  lemma NewlineIsSpace()
    ensures AllSpace("\n")
  {
  }

  /** Trimming the line of a text keeps everything but blanks and tabs if and only if nothing
      else was cut off behind the text. */
  lemma TrimKeepsInkIff(t: string)
    ensures Ink(TrimmedLine(t + "\n")) == Ink(t + "\n")
       <==> BlanksAndTabs(t[|RStrip(t)|..])
  {
    var r := RStrip(t);
    var tail := t[|r|..];
    hide Ink, RStrip, IsSpace, BlanksAndTabs;
    StripBeforeNewline(t);
    assert t == r + tail;
    InkAppend(r, tail);
    InkAppend(t, "\n");
    InkAppend(r, "\n");
    InkEmptyIff(tail);
    LongerText(Ink(r), Ink(tail));
    NewlineInk();
  }

  lemma NewlineInk()
    ensures Ink("\n") == "\n"
  {
    assert "\n"[1..] == "";
  }

  lemma LongerText(a: string, b: string)
    ensures a + "\n" == a + b + "\n" <==> b == ""
  {
    if b == "" {
      assert a + b == a;
    } else {
      assert |a + "\n"| < |a + b + "\n"|;
    }
  }

  lemma StripBeforeNewline(t: string)
    ensures RStrip(t + "\n") == RStrip(t)
  {
    var r := RStrip(t);
    var tail := t[|r|..];
    assert t + "\n" == r + (tail + "\n");
    RStripUnique(r, tail + "\n");
  }

  /** A form feed at the end of a line is cut off. */
  lemma FormFeedLost()
    ensures TrimmedLine("x\U{0C}\n") == "x\n" && Ink("x\U{0C}\n") != Ink("x\n")
  {
    RStripUnique("x", "\U{0C}\n");
    assert "x" + "\U{0C}\n" == "x\U{0C}\n";
    var a, b := "x\U{0C}\n", "x\n";
    assert a[1..] == "\U{0C}\n" && b[1..] == "\n" && a[1..][1..] == "\n" && b[1..][1..] == "";
    assert |Ink(a)| == 3 && |Ink(b)| == 2;
  }

  // ---------- whole files ----------

  ghost predicate WhitespaceClean(text: string) {
    !HasTrailing(Lines(text))
  }

  ghost predicate TabsClean(text: string) {
    !HasTabs(Lines(text))
  }

  /** The content of a file after the whitespace fix: a clean file is not written. */
  ghost function WhitespaceFixed(text: string): string {
    if WhitespaceClean(text) then text else Join(TrimmedLines(Lines(text)))
  }

  ghost function TabsFixed(text: string): string {
    if TabsClean(text) then text else Join(ExpandedLines(Lines(text)))
  }

  /** Reading a file after the white space fix gives the trimmed lines. */
  lemma TrimmedFileLines(text: string)
    ensures |Lines(WhitespaceFixed(text))| == |Lines(text)|
    ensures forall i :: 0 <= i < |Lines(text)| ==> Lines(WhitespaceFixed(text))[i] == RStrip(Lines(text)[i]) + "\n"
  {
    hide Lines, Join;
    LinesAreOk(text);
    TrimmedLinesOk(Lines(text));
    WriteThenRead(TrimmedLines(Lines(text)));
  }

  lemma WhitespaceFixedIsClean(text: string)
    ensures WhitespaceClean(WhitespaceFixed(text))
    ensures WhitespaceFixed(WhitespaceFixed(text)) == WhitespaceFixed(text)
    ensures |Lines(WhitespaceFixed(text))| == |Lines(text)|
  {
    LinesAreOk(text);
    TrimmedLinesOk(Lines(text));
    WriteThenRead(TrimmedLines(Lines(text)));
    TrimmedLinesClean(Lines(text));
  }

  lemma TabsFixedIsClean(text: string)
    ensures TabsClean(TabsFixed(text))
    ensures TabsFixed(TabsFixed(text)) == TabsFixed(text)
    ensures |Lines(TabsFixed(text))| == |Lines(text)|
  {
    LinesAreOk(text);
    ExpandedLinesOk(Lines(text));
    WriteThenRead(ExpandedLines(Lines(text)));
    ExpandedLinesClean(Lines(text));
  }

  /** Lines that are no guards in a region where formatting is off come out identical. */
  lemma DisabledLinesUntouched(text: string, i: nat)
    requires i < |Lines(text)| && !Checked(Kinds(Lines(text)), i)
    ensures i < |Lines(TabsFixed(text))| && Lines(TabsFixed(text))[i] == Lines(text)[i]
  {
    hide Lines, Join;
    FixedFileLines(text);
  }

  /** The tab fix keeps the visible text of every line. */
  lemma TabsFixedKeepsInk(text: string, i: nat)
    requires i < |Lines(text)|
    ensures i < |Lines(TabsFixed(text))| && Ink(Lines(TabsFixed(text))[i]) == Ink(Lines(text)[i])
  {
    hide Expand, Ink, Lines, Join;
    FixedFileLines(text);
    ExpandKeepsInk(Lines(text)[i], 0);
  }

  /** Reading a file after the tab fix gives the expanded lines. */
  lemma FixedFileLines(text: string)
    ensures Lines(TabsFixed(text)) == ExpandedLines(Lines(text))
  {
    hide Lines, Join;
    LinesAreOk(text);
    ExpandedLinesOk(Lines(text));
    WriteThenRead(ExpandedLines(Lines(text)));
    ExpandedLinesChange(Lines(text));
  }

  lemma TabsFixedKeepsWhitespaceClean(text: string)
    requires WhitespaceClean(text)
    ensures WhitespaceClean(TabsFixed(text))
  {
    hide Lines, Join;
    FixedFileLines(text);
    ExpandedLinesKeepClean(Lines(text));
  }

  /** Fixing trailing white space and then tabs leaves a file clean for both checks. */
  lemma BothFixesClean(text: string)
    ensures WhitespaceClean(TabsFixed(WhitespaceFixed(text)))
    ensures TabsClean(TabsFixed(WhitespaceFixed(text)))
  {
    WhitespaceFixedIsClean(text);
    TabsFixedKeepsWhitespaceClean(WhitespaceFixed(text));
    TabsFixedIsClean(WhitespaceFixed(text));
  }
}
