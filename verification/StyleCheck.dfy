/** The checkers and fixers as they loop over the lines of a file and over the files
    of a tree, and the exit status of the style check. */
module StyleCheck {
  import opened StyleText
  import opened StyleRules

  class SourceTree {
    /** File contents by name. */
    var files: map<string, string>
    /** The formatting program: its verdict on a text, and what it rewrites a text to. */
    const formatter: Formatter

    constructor (files: map<string, string>, formatter: Formatter)
      ensures this.files == files && this.formatter == formatter
    {
      this.files := files;
      this.formatter := formatter;
    }

    /** Check or fix the formatting of one file. */
    method CheckFormattingFile(filename: string, fix: bool) returns (fileFormatted: bool)
      requires filename in files
      modifies this
      ensures fileFormatted <==> formatter.wellFormatted(old(files)[filename])
      ensures files == if fix then old(files)[filename := Formatted(formatter, old(files)[filename])] else old(files)
    {
      fileFormatted := formatter.wellFormatted(files[filename]);
      if fix && !fileFormatted {
        files := files[filename := formatter.reformat(files[filename])];
      }
    }

    /** Check or fix the formatting of a list of files; the fix is trusted. */
    method CheckFormatting(filenames: seq<string>, fix: bool) returns (successful: bool)
      requires Present(files, filenames)
      modifies this
      ensures successful <==> fix || AllFormatted(formatter, old(files), filenames)
      ensures files == if fix then FormattedFiles(formatter, old(files), filenames) else old(files)
    {
      hide Formatted;
      var found := false;
      var i := 0;
      while i < |filenames|
        invariant i <= |filenames|
        invariant files == if fix then FormattedFiles(formatter, old(files), filenames[..i]) else old(files)
        invariant !fix ==> (found <==> !AllFormatted(formatter, old(files), filenames[..i]))
      {
        FormattedFilesStep(formatter, old(files), filenames[..i], filenames[i]);
        var fileFormatted := CheckFormattingFile(filenames[i], fix);
        found := found || !fileFormatted;
        assert filenames[..i+1] == filenames[..i] + [filenames[i]];
        i := i + 1;
      }
      assert filenames[..i] == filenames;
      successful := !found || fix;
    }

    /** Check or fix trailing white space in one file. */
    method CheckTrailingWhitespaceFile(filename: string, fix: bool) returns (hasTrailingWhitespace: bool)
      requires filename in files
      modifies this
      ensures hasTrailingWhitespace <==> !WhitespaceClean(old(files)[filename])
      ensures files == if fix then old(files)[filename := WhitespaceFixed(old(files)[filename])] else old(files)
      ensures
        var before := Lines(old(files)[filename]);
        hasTrailingWhitespace <==> exists i :: 0 <= i < |before| && before[i] != RStrip(before[i]) + "\n"
      ensures fix ==>
        var (before, after) := (Lines(old(files)[filename]), Lines(files[filename]));
        && |after| == |before|
        && (forall i :: 0 <= i < |after| ==> after[i] == RStrip(before[i]) + "\n")
    {
      hide Lines, Join;
      TrimmedFileLines(files[filename]);
      var fileLines;
      hasTrailingWhitespace, fileLines := TrimLines(Lines(files[filename]), fix);
      if fix && hasTrailingWhitespace {
        files := files[filename := Join(fileLines)];
      }
    }

    /** Check or fix tabs in one file; lines between the clang-format guards are left alone. */
    method CheckTabsFile(filename: string, fix: bool) returns (hasTabs: bool)
      requires filename in files
      modifies this
      ensures hasTabs <==> !TabsClean(old(files)[filename])
      ensures files == if fix then old(files)[filename := TabsFixed(old(files)[filename])] else old(files)
      ensures hasTabs <==> exists i :: ShownTab(Lines(old(files)[filename]), i)
      ensures fix ==> forall i :: !ShownTab(Lines(files[filename]), i)
      ensures fix ==>
        var (before, after) := (Lines(old(files)[filename]), Lines(files[filename]));
        && |after| == |before|
        && (forall i :: 0 <= i < |after| ==>
              after[i] == if ShownTab(before, i) then Expand(before[i], 0) else before[i])
        && ((forall k :: 0 <= k < |before| ==> Strip(before[k]) != GUARD_OFF) ==>
              forall i :: 0 <= i < |after| ==> '\t' !in after[i])
    {
      hide Lines, Join, Expand, Strip;
      TabsFileMeaning(files[filename]);
      var fileLines;
      hasTabs, fileLines := ExpandLines(Lines(files[filename]), fix);
      if fix && hasTabs {
        files := files[filename := Join(fileLines)];
      }
    }

    /** Check or fix trailing white space in a list of files; the verdict is whether no
        trailing white space is left, the fix being trusted. */
    method CheckTrailingWhitespace(filenames: seq<string>, fix: bool) returns (successful: bool)
      requires Present(files, filenames)
      modifies this
      ensures successful <==> fix || AllWhitespaceClean(old(files), filenames)
      ensures files == if fix then WhitespaceFixedFiles(old(files), filenames) else old(files)
    {
      NoFiles(files);
      hide WhitespaceClean, WhitespaceFixed, WhitespaceFixedFiles, AllWhitespaceClean, Lines, RStrip;
      var found := false;
      var i := 0;
      while i < |filenames|
        invariant i <= |filenames|
        invariant files == if fix then WhitespaceFixedFiles(old(files), filenames[..i]) else old(files)
        invariant !fix ==> (found <==> !AllWhitespaceClean(old(files), filenames[..i]))
      {
        WhitespaceFilesStep(old(files), filenames[..i], filenames[i]);
        var hasTrailingWhitespace := CheckTrailingWhitespaceFile(filenames[i], fix);
        found := found || hasTrailingWhitespace;
        assert filenames[..i+1] == filenames[..i] + [filenames[i]];
        i := i + 1;
      }
      assert filenames[..i] == filenames;
      successful := !found || fix;
    }

    /** Check or fix tabs in a list of files. */
    method CheckTabs(filenames: seq<string>, fix: bool) returns (successful: bool)
      requires Present(files, filenames)
      modifies this
      ensures successful <==> fix || AllTabsClean(old(files), filenames)
      ensures files == if fix then TabsFixedFiles(old(files), filenames) else old(files)
    {
      NoFiles(files);
      hide TabsClean, TabsFixed, TabsFixedFiles, AllTabsClean, Lines, Strip, Expand, ShownTab;
      var found := false;
      var i := 0;
      while i < |filenames|
        invariant i <= |filenames|
        invariant files == if fix then TabsFixedFiles(old(files), filenames[..i]) else old(files)
        invariant !fix ==> (found <==> !AllTabsClean(old(files), filenames[..i]))
      {
        TabsFilesStep(old(files), filenames[..i], filenames[i]);
        var hasTabs := CheckTabsFile(filenames[i], fix);
        found := found || hasTabs;
        assert filenames[..i+1] == filenames[..i] + [filenames[i]];
        i := i + 1;
      }
      assert filenames[..i] == filenames;
      successful := !found || fix;
    }

    /** The whole check: formatting, white space, tabs. In check mode nothing is written and the
        status is 0 exactly when every file is formatted and clean. In fix mode the status is 0.
        Whenever the status is 0 the files really have no trailing white space and no tabs
        afterwards, whatever the formatter does; they are formatted too if the formatter is
        settled, which is just what this takes. */
    method CheckStyle(lists: Lists, enable: Enable, fix: bool) returns (status: int)
      requires Present(files, lists.formatting)
      requires Present(files, lists.whitespace)
      requires Present(files, lists.tabs)
      modifies this
      ensures status == 0 || status == 1
      ensures status == 0
         <==> fix || (FormattingOk(formatter, old(files), lists, enable) && AllClean(old(files), lists, enable))
      ensures status == 0 ==> AllClean(files, lists, enable)
      ensures status == 0 && (fix ==> Settled(formatter)) ==> FormattingOk(formatter, files, lists, enable)
      ensures files.Keys == old(files).Keys
      ensures files == if fix then FixedFiles(formatter, old(files), lists, enable) else old(files)
      ensures fix && FormattingOk(formatter, old(files), lists, enable) && AllClean(old(files), lists, enable) ==>
        files == old(files)
      ensures status == 0 && enable.whitespace ==> forall n :: n in lists.whitespace ==> WhitespaceClean(files[n])
      ensures status == 0 && enable.tabs ==> forall n :: n in lists.tabs ==> TabsClean(files[n])
      ensures fix ==> forall n :: n in files ==>
        var start := Start(formatter, old(files), lists.formatting, enable.formatting)[n];
        && files[n] == OtherFixes(start, enable.whitespace && n in lists.whitespace, enable.tabs && n in lists.tabs)
        && (n !in lists.formatting ==> start == old(files)[n])
    {
      hide WhitespaceClean, WhitespaceFixed, TabsClean, TabsFixed, Formatted, FormattedFiles, Settled;
      FormattedFilesKeys(formatter, files, lists.formatting);
      var formattingSuccessful, whitespaceSuccessful, tabsSuccessful := true, true, true;
      if enable.formatting {
        formattingSuccessful := CheckFormatting(lists.formatting, fix);
      }
      if enable.whitespace {
        whitespaceSuccessful := CheckTrailingWhitespace(lists.whitespace, fix);
      }
      if enable.tabs {
        tabsSuccessful := CheckTabs(lists.tabs, fix);
      }
      status := if formattingSuccessful && whitespaceSuccessful && tabsSuccessful then 0 else 1;
      assert fix ==> files == FixedFiles(formatter, old(files), lists, enable);
      if fix {
        FixedTreeIsClean(formatter, old(files), lists, enable);
        CleanTreeIsKept(formatter, old(files), lists, enable);
        FixedTreeIsFormatted(formatter, old(files), lists, enable);
        FixedFileIs(formatter, old(files), lists, enable);
      }
    }
  }

  /** The formatting program: its verdict on a text, and what it rewrites a text to. */
  datatype Formatter = Formatter(wellFormatted: string -> bool, reformat: string -> string)

  /** The files found for each check, and the checks that are switched on. */
  datatype Lists = Lists(formatting: seq<string>, whitespace: seq<string>, tabs: seq<string>)

  datatype Enable = Enable(formatting: bool, whitespace: bool, tabs: bool)

  /** What it leaves behind is well formatted, and the two other fixes keep a well formatted
      text well formatted. Such a text need not be clean: between guards the formatter may
      accept any white space. */
  ghost predicate Settled(f: Formatter) {
    forall text ::
      && f.wellFormatted(Formatted(f, text))
      && (f.wellFormatted(text) ==> f.wellFormatted(WhitespaceFixed(text)) && f.wellFormatted(TabsFixed(text)))
  }

  /** The files when the white space check begins in fix mode. */
  function Start(f: Formatter, files: map<string, string>, names: seq<string>, enabled: bool): (r: map<string, string>)
    ensures r.Keys == files.Keys
  {
    FormattedFilesKeys(f, files, names);
    if enabled then FormattedFiles(f, files, names) else files
  }

  /** A text after the white space fix and the tab fix, as far as they apply. */
  ghost function OtherFixes(text: string, whitespace: bool, tabs: bool): string {
    var middle := if whitespace then WhitespaceFixed(text) else text;
    if tabs then TabsFixed(middle) else middle
  }

  lemma {:induction false} UnlistedNotFormatted(f: Formatter, files: map<string, string>, names: seq<string>, n: string)
    requires n in files && n !in names
    ensures n in FormattedFiles(f, files, names) && FormattedFiles(f, files, names)[n] == files[n]
  {
    hide Formatted;
    if names != [] {
      UnlistedNotFormatted(f, files, names[..|names|-1], n);
    }
  }

  /** Each file gets just the fixes of the enabled lists it is on. */
  lemma FixedFileIs(f: Formatter, files: map<string, string>, lists: Lists, enable: Enable)
    ensures FixedFiles(f, files, lists, enable).Keys == files.Keys
    ensures forall n :: n in files ==>
      var start := Start(f, files, lists.formatting, enable.formatting);
      && FixedFiles(f, files, lists, enable)[n]
         == OtherFixes(start[n], enable.whitespace && n in lists.whitespace, enable.tabs && n in lists.tabs)
      && (n !in lists.formatting ==> start[n] == files[n])
  {
    hide WhitespaceFixed, TabsFixed, FormattedFiles;
    var start := Start(f, files, lists.formatting, enable.formatting);
    FormattedFilesKeys(f, files, lists.formatting);
    forall n | n in files && n !in lists.formatting
      ensures start[n] == files[n]
    {
      UnlistedNotFormatted(f, files, lists.formatting, n);
    }
  }

  /** The content of a file after the formatting fix: a well formatted file is not written. */
  function Formatted(f: Formatter, text: string): string {
    if f.wellFormatted(text) then text else f.reformat(text)
  }

  /** The files after those on a list were formatted one after the other. */
  function FormattedFiles(f: Formatter, files: map<string, string>, names: seq<string>): map<string, string> {
    if names == [] then files
    else
      var n, before := names[|names|-1], FormattedFiles(f, files, names[..|names|-1]);
      if n in before then before[n := Formatted(f, before[n])] else before
  }

  ghost predicate AllFormatted(f: Formatter, files: map<string, string>, names: seq<string>) {
    forall n :: n in names ==> n in files && f.wellFormatted(files[n])
  }

  ghost predicate FormattingOk(f: Formatter, files: map<string, string>, lists: Lists, enable: Enable) {
    enable.formatting ==> AllFormatted(f, files, lists.formatting)
  }

  lemma {:induction false} FormattedFilesKeys(f: Formatter, files: map<string, string>, names: seq<string>)
    ensures FormattedFiles(f, files, names).Keys == files.Keys
  {
    hide Formatted;
    if names != [] {
      FormattedFilesKeys(f, files, names[..|names|-1]);
    }
  }

  lemma FormattedFilesStep(f: Formatter, files: map<string, string>, names: seq<string>, n: string)
    requires n in files && Present(files, names)
    ensures var after := FormattedFiles(f, files, names);
      n in after && FormattedFiles(f, files, names + [n]) == after[n := Formatted(f, after[n])]
    ensures AllFormatted(f, files, names + [n]) <==> AllFormatted(f, files, names) && f.wellFormatted(files[n])
  {
    hide Formatted;
    FormattedFilesKeys(f, files, names);
    assert (names + [n])[..|names|] == names;
    assert forall x :: x in names + [n] <==> x in names || x == n;
  }

  /** Formatting files that are formatted changes nothing. */
  lemma {:induction false} FormattedFilesKept(f: Formatter, files: map<string, string>, names: seq<string>)
    requires AllFormatted(f, files, names)
    ensures FormattedFiles(f, files, names) == files
  {
    if names != [] {
      FormattedFilesKept(f, files, names[..|names|-1]);
    }
  }

  /** A settled formatter leaves every listed file well formatted. */
  lemma {:induction false} FormattedFilesFormatted(f: Formatter, files: map<string, string>, names: seq<string>)
    requires Settled(f) && Present(files, names)
    ensures AllFormatted(f, FormattedFiles(f, files, names), names)
  {
    hide WhitespaceFixed, TabsFixed, Formatted;
    if names != [] {
      var front, n := names[..|names|-1], names[|names|-1];
      FormattedFilesKeys(f, files, front);
      FormattedFilesFormatted(f, files, front);
      assert forall x :: x in names <==> x in front || x == n;
      assert f.wellFormatted(Formatted(f, FormattedFiles(f, files, front)[n]));
    }
  }

  /** Line `i` holds a tab, and is a guard or has no `off` guard before it without an `on` guard
      in between. */
  ghost predicate ShownTab(ls: seq<string>, i: int) {
    && 0 <= i < |ls| && '\t' in ls[i]
    && (Strip(ls[i]) == GUARD_ON || Strip(ls[i]) == GUARD_OFF || !Shielded(ls, i))
  }

  lemma ShownTabIsChecked(ls: seq<string>, i: nat)
    requires i < |ls|
    ensures ShownTab(ls, i) <==> Checked(Kinds(ls), i) && '\t' in ls[i]
  {
    hide Strip, Checked, Shielded;
    CheckedMeaning(ls, i);
  }

  lemma LinesMeaning(ls: seq<string>)
    ensures HasTabs(ls) <==> exists i :: ShownTab(ls, i)
    ensures forall i :: 0 <= i < |ls| ==>
      ExpandedLines(ls)[i] == if ShownTab(ls, i) then Expand(ls[i], 0) else ls[i]
  {
    hide Expand, Checked, Strip, Shielded;
    forall i | 0 <= i < |ls|
      ensures ShownTab(ls, i) <==> Checked(Kinds(ls), i) && '\t' in ls[i]
      ensures '\t' !in ls[i] ==> Expand(ls[i], 0) == ls[i]
    {
      ShownTabIsChecked(ls, i);
      ExpandIdentity(ls[i], 0);
    }
  }

  /** The tab check and the tab fix of a file, line by line. */
  lemma TabsFileMeaning(text: string)
    ensures TabsClean(text) <==> forall i :: !ShownTab(Lines(text), i)
    ensures forall i :: !ShownTab(Lines(TabsFixed(text)), i)
    ensures
      var before, after := Lines(text), Lines(TabsFixed(text));
      && |after| == |before|
      && (forall i :: 0 <= i < |after| ==> after[i] == if ShownTab(before, i) then Expand(before[i], 0) else before[i])
      && ((forall k :: 0 <= k < |before| ==> Strip(before[k]) != GUARD_OFF) ==>
            forall i :: 0 <= i < |after| ==> '\t' !in after[i])
  {
    hide Lines, Join, Expand, Strip, Checked, Shielded;
    var before, after := Lines(text), Lines(TabsFixed(text));
    FixedFileLines(text);
    TabsFixedIsClean(text);
    forall i | 0 <= i < |before|
      ensures ShownTab(before, i) <==> Checked(Kinds(before), i) && '\t' in before[i]
      ensures ShownTab(after, i) <==> Checked(Kinds(after), i) && '\t' in after[i]
      ensures '\t' !in before[i] ==> Expand(before[i], 0) == before[i]
      ensures '\t' !in Expand(before[i], 0)
    {
      ShownTabIsChecked(before, i);
      ShownTabIsChecked(after, i);
      ExpandIdentity(before[i], 0);
      ExpandChars(before[i], 0);
    }
    if forall k :: 0 <= k < |before| ==> Strip(before[k]) != GUARD_OFF {
      forall i | 0 <= i < |after|
        ensures '\t' !in after[i]
      {
        NothingShields(before, i);
        assert after[i] == if ShownTab(before, i) then Expand(before[i], 0) else before[i];
      }
    }
  }

  lemma NothingShields(ls: seq<string>, i: nat)
    requires i <= |ls| && forall k :: 0 <= k < |ls| ==> Strip(ls[k]) != GUARD_OFF
    ensures !Shielded(ls, i)
  {
    hide Strip;
  }

  /** The loop of the trailing white space check over the lines of a file. */
  method TrimLines(lines: seq<string>, fix: bool) returns (hasTrailingWhitespace: bool, fileLines: seq<string>)
    ensures hasTrailingWhitespace <==> HasTrailing(lines)
    ensures fix ==> fileLines == TrimmedLines(lines)
    ensures !fix ==> fileLines == lines
  {
    hide RStrip;
    hasTrailingWhitespace := false;
    fileLines := lines;
    var i := 0;
    while i < |lines|
      invariant i <= |lines|
      invariant hasTrailingWhitespace <==> exists k :: 0 <= k < i && TrimmedLine(lines[k]) != lines[k]
      invariant !fix ==> !hasTrailingWhitespace && fileLines == lines
      invariant |fileLines| == |lines|
      invariant forall k :: i <= k < |lines| ==> fileLines[k] == lines[k]
      invariant fix ==> forall k :: 0 <= k < i ==> fileLines[k] == TrimmedLines(lines)[k]
    {
      var lineFixed := RStrip(lines[i]) + "\n";
      if lineFixed != lines[i] {
        hasTrailingWhitespace := true;
        if !fix {
          return;
        }
        fileLines := fileLines[i := lineFixed];
      }
      i := i + 1;
    }
  }

  /** The loop of the tab check, with the clang-format switch. */
  method ExpandLines(lines: seq<string>, fix: bool) returns (hasTabs: bool, fileLines: seq<string>)
    ensures hasTabs <==> HasTabs(lines)
    ensures fix ==> fileLines == ExpandedLines(lines)
    ensures !fix ==> fileLines == lines
    ensures hasTabs <==> exists i :: ShownTab(lines, i)
    ensures fix ==> |fileLines| == |lines| && forall i :: 0 <= i < |lines| ==>
      fileLines[i] == if ShownTab(lines, i) then Expand(lines[i], 0) else lines[i]
  {
    LinesMeaning(lines);
    hide KindOf, Expand, ShownTab;
    hasTabs := false;
    var clangFormatEnabled := true;
    fileLines := lines;
    var i := 0;
    while i < |lines|
      invariant i <= |lines|
      invariant clangFormatEnabled == EnabledAfter(Kinds(lines), i)
      invariant hasTabs <==> exists k :: 0 <= k < i && Checked(Kinds(lines), k) && '\t' in lines[k]
      invariant !fix ==> !hasTabs && fileLines == lines
      invariant |fileLines| == |lines|
      invariant forall k :: i <= k < |lines| ==> fileLines[k] == lines[k]
      invariant fix ==> forall k :: 0 <= k < i ==> fileLines[k] == ExpandedLines(lines)[k]
    {
      var kind := KindOf(lines[i]);
      if kind == On {
        clangFormatEnabled := true;
      } else if kind == Off {
        clangFormatEnabled := false;
      }
      if clangFormatEnabled || kind != Ordinary {
        ExpandIdentity(lines[i], 0);
        if '\t' in lines[i] {
          hasTabs := true;
          assert Checked(Kinds(lines), i);
          if !fix {
            return;
          }
          fileLines := fileLines[i := Expand(lines[i], 0)];
        }
      }
      i := i + 1;
    }
  }

  ghost function WhitespaceFixedFiles(files: map<string, string>, names: seq<string>): map<string, string> {
    map n | n in files :: if n in names then WhitespaceFixed(files[n]) else files[n]
  }

  ghost function TabsFixedFiles(files: map<string, string>, names: seq<string>): map<string, string> {
    map n | n in files :: if n in names then TabsFixed(files[n]) else files[n]
  }

  lemma NoFiles(files: map<string, string>)
    ensures WhitespaceFixedFiles(files, []) == TabsFixedFiles(files, []) == files
    ensures AllWhitespaceClean(files, []) && AllTabsClean(files, [])
  {
  }

  /** One more file on the list; a file listed twice is fixed once. */
  lemma WhitespaceFilesStep(files: map<string, string>, names: seq<string>, n: string)
    requires n in files && Present(files, names)
    ensures var f := WhitespaceFixedFiles(files, names);
      n in f && WhitespaceFixedFiles(files, names + [n]) == f[n := WhitespaceFixed(f[n])]
    ensures AllWhitespaceClean(files, names + [n]) <==> AllWhitespaceClean(files, names) && WhitespaceClean(files[n])
  {
    hide WhitespaceClean, WhitespaceFixed;
    WhitespaceFixedIsClean(files[n]);
    assert forall x :: x in names + [n] <==> x in names || x == n;
  }

  lemma TabsFilesStep(files: map<string, string>, names: seq<string>, n: string)
    requires n in files && Present(files, names)
    ensures var f := TabsFixedFiles(files, names);
      n in f && TabsFixedFiles(files, names + [n]) == f[n := TabsFixed(f[n])]
    ensures AllTabsClean(files, names + [n]) <==> AllTabsClean(files, names) && TabsClean(files[n])
  {
    hide TabsClean, TabsFixed;
    TabsFixedIsClean(files[n]);
    assert forall x :: x in names + [n] <==> x in names || x == n;
  }

  /** Every listed file passes the white space and tab checks that are switched on. */
  ghost predicate AllClean(files: map<string, string>, lists: Lists, enable: Enable) {
    && (enable.whitespace ==> AllWhitespaceClean(files, lists.whitespace))
    && (enable.tabs ==> AllTabsClean(files, lists.tabs))
  }

  ghost predicate AllWhitespaceClean(files: map<string, string>, names: seq<string>) {
    forall n :: n in names ==> n in files && WhitespaceClean(files[n])
  }

  ghost predicate AllTabsClean(files: map<string, string>, names: seq<string>) {
    forall n :: n in names ==> n in files && TabsClean(files[n])
  }

  ghost predicate Present(files: map<string, string>, names: seq<string>) {
    forall n :: n in names ==> n in files
  }

  /** The files after fix mode. */
  ghost function FixedFiles(f: Formatter, files: map<string, string>, lists: Lists, enable: Enable)
    : map<string, string>
  {
    CleanedFiles(if enable.formatting then FormattedFiles(f, files, lists.formatting) else files, lists, enable)
  }

  /** The files after the white space fix and the tab fix. */
  ghost function CleanedFiles(files: map<string, string>, lists: Lists, enable: Enable): map<string, string> {
    var middle := if enable.whitespace then WhitespaceFixedFiles(files, lists.whitespace) else files;
    if enable.tabs then TabsFixedFiles(middle, lists.tabs) else middle
  }

  /** The tab fix does not undo the white space fix, whatever lists the files are on and
      whatever the formatter did before. */
  lemma FixedTreeIsClean(f: Formatter, files: map<string, string>, lists: Lists, enable: Enable)
    requires Present(files, lists.whitespace)
    requires Present(files, lists.tabs)
    ensures FixedFiles(f, files, lists, enable).Keys == files.Keys
    ensures AllClean(FixedFiles(f, files, lists, enable), lists, enable)
  {
    hide FormattedFiles, WhitespaceClean, WhitespaceFixed, TabsClean, TabsFixed;
    FormattedFilesKeys(f, files, lists.formatting);
    var start := if enable.formatting then FormattedFiles(f, files, lists.formatting) else files;
    var after := CleanedFiles(start, lists, enable);
    forall n | n in lists.whitespace && enable.whitespace
      ensures WhitespaceClean(after[n])
    {
      WhitespaceFixedIsClean(start[n]);
      TabsFixedKeepsWhitespaceClean(WhitespaceFixed(start[n]));
    }
    forall n | n in lists.tabs && enable.tabs
      ensures TabsClean(after[n])
    {
      TabsFixedIsClean(start[n]);
      TabsFixedIsClean(WhitespaceFixed(start[n]));
    }
  }

  lemma CleanFilesKept(files: map<string, string>, lists: Lists, enable: Enable)
    requires AllClean(files, lists, enable)
    ensures CleanedFiles(files, lists, enable) == files
  {
  }

  /** Fix mode leaves a tree alone that is formatted and clean. */
  lemma CleanTreeIsKept(f: Formatter, files: map<string, string>, lists: Lists, enable: Enable)
    ensures FormattingOk(f, files, lists, enable) && AllClean(files, lists, enable) ==>
      FixedFiles(f, files, lists, enable) == files
  {
    hide FormattedFiles, WhitespaceClean, WhitespaceFixed, TabsClean, TabsFixed, CleanedFiles;
    if FormattingOk(f, files, lists, enable) && AllClean(files, lists, enable) {
      CleanFilesKept(files, lists, enable);
      if enable.formatting {
        FormattedFilesKept(f, files, lists.formatting);
      }
    }
  }

  /** With a settled formatter the later fixes leave the formatted files formatted, whatever
      lists they are on. */
  lemma FixedTreeIsFormatted(f: Formatter, files: map<string, string>, lists: Lists, enable: Enable)
    requires Present(files, lists.formatting)
    ensures Settled(f) ==> FormattingOk(f, FixedFiles(f, files, lists, enable), lists, enable)
  {
    hide FormattedFiles, WhitespaceFixed, TabsFixed, Formatted;
    if Settled(f) && enable.formatting {
      FormattedFilesFormatted(f, files, lists.formatting);
      var start := FormattedFiles(f, files, lists.formatting);
      forall n | n in lists.formatting
        ensures n in FixedFiles(f, files, lists, enable) && f.wellFormatted(FixedFiles(f, files, lists, enable)[n])
      {
        assert f.wellFormatted(start[n]);
        var middle := if enable.whitespace && n in lists.whitespace then WhitespaceFixed(start[n]) else start[n];
        assert f.wellFormatted(middle);
        assert f.wellFormatted(TabsFixed(middle));
      }
    }
  }

  /** Fix mode leaves every tree formatted if and only if the formatter is settled. */
  lemma FormattingKeptIff(f: Formatter)
    ensures (forall files, lists: Lists, enable | Present(files, lists.formatting) ::
               FormattingOk(f, FixedFiles(f, files, lists, enable), lists, enable))
       <==> Settled(f)
  {
    hide FixedFiles, FormattingOk, WhitespaceFixed, TabsFixed;
    if Settled(f) {
      forall files, lists: Lists, enable | Present(files, lists.formatting)
        ensures FormattingOk(f, FixedFiles(f, files, lists, enable), lists, enable)
      {
        FixedTreeIsFormatted(f, files, lists, enable);
      }
    }
    if forall files, lists: Lists, enable | Present(files, lists.formatting) ::
         FormattingOk(f, FixedFiles(f, files, lists, enable), lists, enable)
    {
      forall text
        ensures f.wellFormatted(Formatted(f, text))
        ensures f.wellFormatted(text) ==> f.wellFormatted(WhitespaceFixed(text)) && f.wellFormatted(TabsFixed(text))
      {
        var files, names := map["a" := text], ["a"];
        assert Present(files, names);
        OneFile(f, text, Lists(names, [], []), Enable(true, false, false));
        OneFile(f, text, Lists(names, names, []), Enable(true, true, false));
        OneFile(f, text, Lists(names, [], names), Enable(true, false, true));
      }
    }
  }

  /** What fix mode makes of a tree with one file. */
  lemma OneFile(f: Formatter, text: string, lists: Lists, enable: Enable)
    requires lists.formatting == ["a"] && enable.formatting
    requires lists.whitespace == (if enable.whitespace then ["a"] else [])
    requires lists.tabs == (if enable.tabs then ["a"] else [])
    ensures
      var formatted := Formatted(f, text);
      var middle := if enable.whitespace then WhitespaceFixed(formatted) else formatted;
      FormattingOk(f, FixedFiles(f, map["a" := text], lists, enable), lists, enable)
      <==> f.wellFormatted(if enable.tabs then TabsFixed(middle) else middle)
  {
    hide WhitespaceFixed, TabsFixed, Formatted;
    var files := map["a" := text];
    assert FormattedFiles(f, files, []) == files;
    assert ["a"][..0] == [];
    assert FormattedFiles(f, files, ["a"]) == files["a" := Formatted(f, text)];
    assert "a" in lists.formatting;
  }
}
