/** The Python string operations the style checker is built from: stripping, tab
    expansion, and reading and writing a text file line by line. */
module StyleText {

  // ---------- white space ----------

  /** The characters for which Python's `str.isspace` holds. */
  predicate IsSpace(c: char) {
    || '\t' <= c <= '\r'
    || '\U{1C}' <= c <= ' '
    || c == '\U{85}' || c == '\U{A0}' || c == '\U{1680}'
    || '\U{2000}' <= c <= '\U{200A}'
    || c == '\U{2028}' || c == '\U{2029}' || c == '\U{202F}' || c == '\U{205F}' || c == '\U{3000}'
  }

  /** They are these 29, none of them a printable ASCII character. */
  lemma SpaceList(c: char)
    ensures IsSpace(c) <==> c in ['\t', '\n', '\U{0B}', '\U{0C}', '\r', '\U{1C}', '\U{1D}', '\U{1E}', '\U{1F}', ' ',
                                  '\U{85}', '\U{A0}', '\U{1680}', '\U{2000}', '\U{2001}', '\U{2002}', '\U{2003}',
                                  '\U{2004}', '\U{2005}', '\U{2006}', '\U{2007}', '\U{2008}', '\U{2009}', '\U{200A}',
                                  '\U{2028}', '\U{2029}', '\U{202F}', '\U{205F}', '\U{3000}']
    ensures '!' <= c <= '~' ==> !IsSpace(c)
  {
  }

  ghost predicate AllSpace(s: string) {
    forall k :: 0 <= k < |s| ==> IsSpace(s[k])
  }

  /** Ends in something visible, or is empty. */
  predicate RightTight(s: string) {
    s == "" || !IsSpace(s[|s|-1])
  }

  predicate Tight(s: string) {
    s == "" || (!IsSpace(s[0]) && !IsSpace(s[|s|-1]))
  }

  /** What `rstrip` leaves: a prefix that does not end in white space, cut off before
      nothing but white space. */
  function RStrip(s: string): (r: string)
    ensures r <= s && RightTight(r) && AllSpace(s[|r|..])
  {
    if s == "" || !IsSpace(s[|s|-1]) then s else RStrip(s[..|s|-1])
  }

  function LStrip(s: string): (r: string)
    ensures |r| <= |s| && r == s[|s| - |r|..] && AllSpace(s[..|s| - |r|])
    ensures r == "" || !IsSpace(r[0])
  {
    if s == "" || !IsSpace(s[0]) then s else LStrip(s[1..])
  }

  function Strip(s: string): (r: string) {
    LStrip(RStrip(s))
  }

  lemma {:induction false} RStripUnique(r: string, b: string)
    requires RightTight(r) && AllSpace(b)
    ensures RStrip(r + b) == r
    decreases |b|
  {
    if b == "" {
      assert r + b == r;
    } else {
      assert (r + b)[..|r + b| - 1] == r + b[..|b|-1];
      RStripUnique(r, b[..|b|-1]);
    }
  }

  lemma {:induction false} LStripUnique(a: string, r: string)
    requires AllSpace(a) && (r == "" || !IsSpace(r[0]))
    ensures LStrip(a + r) == r
  {
    if a == "" {
      assert a + r == r;
    } else {
      assert (a + r)[1..] == a[1..] + r;
      LStripUnique(a[1..], r);
    }
  }

  /** Stripping finds the tight middle part, however the white space around it looks. */
  lemma StripUnique(a: string, m: string, b: string)
    requires AllSpace(a) && Tight(m) && AllSpace(b)
    ensures Strip(a + m + b) == m
  {
    if m == "" {
      assert AllSpace(a + b) && a + m + b == "" + (a + b);
      RStripUnique("", a + b);
    } else {
      RStripUnique(a + m, b);
      LStripUnique(a, m);
    }
  }

  /** The white space in front of the text of a line. */
  function LeadOf(s: string): string {
    var r := RStrip(s);
    r[..|r| - |LStrip(r)|]
  }

  /** Every string is its stripped form between two stretches of white space. */
  lemma StripSplits(s: string) returns (a: string, b: string)
    ensures a == LeadOf(s)
    ensures AllSpace(a) && AllSpace(b) && s == a + Strip(s) + b && Tight(Strip(s))
  {
    var r := RStrip(s);
    b := s[|r|..];
    assert s == r + b;
    a := r[..|r| - |LStrip(r)|];
    SuffixTight(r, LStrip(r));
  }

  lemma SuffixTight(r: string, m: string)
    requires RightTight(r) && |m| <= |r| && m == r[|r| - |m|..] && (m == "" || !IsSpace(m[0]))
    ensures Tight(m) && r == r[..|r| - |m|] + m
  {
    if m != "" {
      assert m[|m|-1] == r[|r|-1];
    }
  }

  // ---------- tab expansion ----------

  const TAB_SIZE := 4

  function Spaces(n: nat): (r: string)
    ensures |r| == n && forall k :: 0 <= k < n ==> r[k] == ' '
  {
    seq(n, _ => ' ')
  }

  /** The next tab stop behind a column. */
  function TabStop(col: nat): (r: nat)
    ensures col < r <= col + TAB_SIZE && r % TAB_SIZE == 0
  {
    col + TAB_SIZE - col % TAB_SIZE
  }

  /** `s.expandtabs(TAB_SIZE)` from a given column on. */
  function Expand(s: string, col: nat): string {
    if s == "" then ""
    else if s[0] == '\t' then Spaces(TabStop(col) - col) + Expand(s[1..], TabStop(col))
    else [s[0]] + Expand(s[1..], NextColumn(s[0], col))
  }

  function NextColumn(c: char, col: nat): nat {
    if c == '\n' || c == '\r' then 0 else col + 1
  }

  /** The column after writing `s`. */
  function ColumnAfter(s: string, col: nat): nat {
    if s == "" then col
    else if s[0] == '\t' then ColumnAfter(s[1..], TabStop(col))
    else ColumnAfter(s[1..], NextColumn(s[0], col))
  }

  lemma {:induction false} ExpandAppend(s: string, t: string, col: nat)
    ensures Expand(s + t, col) == Expand(s, col) + Expand(t, ColumnAfter(s, col))
    decreases |s|
  {
    if s == "" {
      assert s + t == t;
    } else {
      assert (s + t)[0] == s[0] && (s + t)[1..] == s[1..] + t;
      ExpandAppend(s[1..], t, if s[0] == '\t' then TabStop(col) else NextColumn(s[0], col));
    }
  }

  /** Expansion yields blanks and the non-tab characters of the line, nothing else. */
  lemma {:induction false} ExpandChars(s: string, col: nat)
    ensures forall k :: 0 <= k < |Expand(s, col)| ==>
      Expand(s, col)[k] == ' ' || (Expand(s, col)[k] in s && Expand(s, col)[k] != '\t')
    ensures |Expand(s, col)| >= |s|
    decreases |s|
  {
    if s != "" {
      ExpandChars(s[1..], if s[0] == '\t' then TabStop(col) else NextColumn(s[0], col));
    }
  }

  /** A line without tabs is left alone, and only such a line is. */
  lemma {:induction false} ExpandIdentity(s: string, col: nat)
    ensures Expand(s, col) == s <==> '\t' !in s
    decreases |s|
  {
    if '\t' in s {
      ExpandChars(s, col);
    } else if s != "" {
      ExpandIdentity(s[1..], NextColumn(s[0], col));
    }
  }

  lemma ExpandSpace(s: string, col: nat)
    requires AllSpace(s)
    ensures AllSpace(Expand(s, col))
  {
    ExpandChars(s, col);
  }

  /** Visible text: what is left of a line when blanks and tabs are taken out. */
  function Ink(s: string): string {
    if s == "" then "" else (if s[0] == ' ' || s[0] == '\t' then "" else [s[0]]) + Ink(s[1..])
  }

  lemma {:induction false} InkAppend(s: string, t: string)
    ensures Ink(s + t) == Ink(s) + Ink(t)
  {
    if s == "" {
      assert s + t == t;
    } else {
      assert (s + t)[0] == s[0] && (s + t)[1..] == s[1..] + t;
      InkAppend(s[1..], t);
    }
  }

  lemma {:induction false} InkOfSpaces(n: nat)
    ensures Ink(Spaces(n)) == ""
  {
    if n > 0 {
      assert Spaces(n)[1..] == Spaces(n - 1);
      InkOfSpaces(n - 1);
    }
  }

  /** Expansion changes nothing but blanks and tabs. */
  lemma {:induction false} ExpandKeepsInk(s: string, col: nat)
    ensures Ink(Expand(s, col)) == Ink(s)
    decreases |s|
  {
    if s != "" {
      if s[0] == '\t' {
        InkAppend(Spaces(TabStop(col) - col), Expand(s[1..], TabStop(col)));
        InkOfSpaces(TabStop(col) - col);
        ExpandKeepsInk(s[1..], TabStop(col));
      } else {
        var rest := Expand(s[1..], NextColumn(s[0], col));
        assert ([s[0]] + rest)[1..] == rest;
        ExpandKeepsInk(s[1..], NextColumn(s[0], col));
      }
    }
  }

  lemma {:induction false} ColumnAppend(s: string, t: string, col: nat)
    ensures ColumnAfter(s + t, col) == ColumnAfter(t, ColumnAfter(s, col))
    decreases |s|
  {
    if s == "" {
      assert s + t == t;
    } else {
      assert (s + t)[0] == s[0] && (s + t)[1..] == s[1..] + t;
      ColumnAppend(s[1..], t, if s[0] == '\t' then TabStop(col) else NextColumn(s[0], col));
    }
  }

  lemma {:induction false} ColumnOfSpaces(n: nat, col: nat)
    ensures ColumnAfter(Spaces(n), col) == col + n
  {
    if n > 0 {
      assert Spaces(n)[1..] == Spaces(n - 1);
      ColumnOfSpaces(n - 1, col + 1);
    }
  }

  /** Expansion moves nothing: up to every point of a line, the expanded text reaches the
      column at which a display with these tab stops shows that point. */
  lemma {:induction false} ExpandKeepsColumns(s: string, col: nat)
    ensures ColumnAfter(Expand(s, col), col) == ColumnAfter(s, col)
    decreases |s|
  {
    if s != "" {
      if s[0] == '\t' {
        ColumnAppend(Spaces(TabStop(col) - col), Expand(s[1..], TabStop(col)), col);
        ColumnOfSpaces(TabStop(col) - col, col);
        ExpandKeepsColumns(s[1..], TabStop(col));
      } else {
        var rest := Expand(s[1..], NextColumn(s[0], col));
        assert ([s[0]] + rest)[1..] == rest;
        ExpandKeepsColumns(s[1..], NextColumn(s[0], col));
      }
    }
  }

  /** Expanding a tight text leaves it tight. */
  lemma ExpandTightMiddle(m: string, col: nat)
    requires Tight(m)
    ensures Tight(Expand(m, col))
  {
    if m != "" {
      var last := m[|m|-1];
      assert m == m[..|m|-1] + [last];
      ExpandAppend(m[..|m|-1], [last], col);
      ExpandIdentity([last], ColumnAfter(m[..|m|-1], col));
      assert Expand(m, col)[0] == m[0];
    }
  }

  /** Stripping an expanded line gives the expansion of the stripped line, from the column
      at which its text starts. */
  lemma StripExpand(s: string, col: nat)
    ensures Strip(Expand(s, col)) == Expand(Strip(s), ColumnAfter(LeadOf(s), col))
    ensures '\t' !in Strip(s) ==> Strip(Expand(s, col)) == Strip(s)
  {
    var a, b := StripSplits(s);
    var m := Strip(s);
    hide Expand, Strip, ColumnAfter, Tight, IsSpace;
    ExpandAppend(a + m, b, col);
    ExpandAppend(a, m, col);
    ExpandSpace(a, col);
    ExpandSpace(b, ColumnAfter(a + m, col));
    ExpandIdentity(m, ColumnAfter(a, col));
    ExpandTightMiddle(m, ColumnAfter(a, col));
    StripUnique(Expand(a, col), Expand(m, ColumnAfter(a, col)), Expand(b, ColumnAfter(a + m, col)));
  }

  // ---------- files and lines ----------

  /** Universal newlines: what reading in text mode makes of `\r\n` and `\r`. */
  function Translate(t: string): string {
    if t == "" then ""
    else if t[0] == '\r' then "\n" + Translate(if |t| > 1 && t[1] == '\n' then t[2..] else t[1..])
    else [t[0]] + Translate(t[1..])
  }

  lemma {:induction false} TranslateRemoves(t: string)
    ensures '\r' !in Translate(t)
    decreases |t|
  {
    if t != "" {
      TranslateRemoves(if t[0] == '\r' && |t| > 1 && t[1] == '\n' then t[2..] else t[1..]);
    }
  }

  lemma {:induction false} TranslateIdentity(t: string)
    requires '\r' !in t
    ensures Translate(t) == t
  {
    if t != "" {
      assert t[0] in t;
      TranslateIdentity(t[1..]);
    }
  }

  /** Each of the three line ends is read as a newline, and nothing else is changed. */
  lemma {:induction false} TranslateLineEnd(l: string, e: string, t: string)
    requires '\r' !in l
    requires e == "\n" || e == "\r\n" || (e == "\r" && (t == "" || t[0] != '\n'))
    ensures Translate(l + e + t) == l + "\n" + Translate(t)
    ensures Translate(l) == l
  {
    TranslateIdentity(l);
    if l == "" {
      assert l + e + t == e + t;
      LineEndOnly(e, t);
    } else {
      assert (l + e + t)[0] == l[0] && (l + e + t)[1..] == l[1..] + e + t;
      assert l[0] in l;
      TranslateLineEnd(l[1..], e, t);
    }
  }

  lemma LineEndOnly(e: string, t: string)
    requires e == "\n" || e == "\r\n" || (e == "\r" && (t == "" || t[0] != '\n'))
    ensures Translate(e + t) == "\n" + Translate(t)
  {
    var s := e + t;
    if e == "\r\n" {
      assert s[0] == '\r' && s[1] == '\n' && s[2..] == t;
    } else {
      assert s[0] == e[0] && s[1..] == t;
    }
  }

  /** Splitting after each newline; the last line may lack one. */
  function SplitLines(t: string): (ls: seq<string>)
    ensures ls == [] <==> t == ""
  {
    if t == "" then []
    else
      var rest := SplitLines(t[1..]);
      if t[0] == '\n' || rest == [] then [[t[0]]] + rest else [[t[0]] + rest[0]] + rest[1..]
  }

  function Join(ls: seq<string>): string {
    if ls == [] then "" else ls[0] + Join(ls[1..])
  }

  /** `readlines` of a file with this content. */
  function Lines(text: string): seq<string> {
    SplitLines(Translate(text))
  }

  /** A nonempty line with at most one newline, at its end, and no carriage return. */
  ghost predicate LineOk(l: string) {
    l != "" && '\r' !in l && forall k :: 0 <= k < |l| - 1 ==> l[k] != '\n'
  }

  predicate Terminated(l: string) {
    l != "" && l[|l|-1] == '\n'
  }

  /** What `readlines` can return: only the last line may be unterminated. */
  ghost predicate LinesOk(ls: seq<string>) {
    && (forall i :: 0 <= i < |ls| ==> LineOk(ls[i]))
    && (forall i :: 0 <= i < |ls| - 1 ==> Terminated(ls[i]))
  }

  lemma PrependOk(c: char, rest: seq<string>)
    requires c != '\r' && LinesOk(rest)
    ensures LinesOk(if c == '\n' || rest == [] then [[c]] + rest else [[c] + rest[0]] + rest[1..])
  {
    if c != '\n' && rest != [] {
      assert LineOk(rest[0]);
    }
  }

  lemma {:induction false} SplitLinesOk(t: string)
    requires '\r' !in t
    ensures LinesOk(SplitLines(t))
  {
    if t != "" {
      SplitLinesOk(t[1..]);
      PrependOk(t[0], SplitLines(t[1..]));
    }
  }

  lemma LinesAreOk(text: string)
    ensures LinesOk(Lines(text))
  {
    TranslateRemoves(text);
    SplitLinesOk(Translate(text));
  }

  lemma {:induction false} SplitFirst(l: string, t: string)
    requires LineOk(l) && (Terminated(l) || t == "")
    ensures SplitLines(l + t) == [l] + SplitLines(t)
    decreases |l|
  {
    assert (l + t)[0] == l[0] && (l + t)[1..] == l[1..] + t;
    if |l| == 1 {
      assert l[1..] + t == t && l == [l[0]];
    } else {
      assert l[0] != '\n';
      SplitFirst(l[1..], t);
      assert [l[0]] + l[1..] == l;
    }
  }

  lemma {:induction false} SplitJoin(ls: seq<string>)
    requires LinesOk(ls)
    ensures SplitLines(Join(ls)) == ls
  {
    if ls != [] {
      SplitFirst(ls[0], Join(ls[1..]));
      SplitJoin(ls[1..]);
    }
  }

  /** Splitting loses nothing: the lines joined are the text. */
  lemma {:induction false} JoinSplit(t: string)
    ensures Join(SplitLines(t)) == t
  {
    if t != "" {
      JoinSplit(t[1..]);
      var rest := SplitLines(t[1..]);
      if t[0] == '\n' || rest == [] {
        assert ([[t[0]]] + rest)[1..] == rest;
      } else {
        var ls := [[t[0]] + rest[0]] + rest[1..];
        assert ls[1..] == rest[1..];
        assert [t[0]] + rest[0] + Join(rest[1..]) == [t[0]] + (rest[0] + Join(rest[1..]));
      }
    }
  }

  /** The lines of a file, joined, are its text with translated line ends. */
  lemma ReadThenJoin(text: string)
    ensures Join(Lines(text)) == Translate(text)
  {
    JoinSplit(Translate(text));
  }

  lemma {:induction false} JoinNoReturn(ls: seq<string>)
    requires LinesOk(ls)
    ensures '\r' !in Join(ls)
  {
    if ls != [] {
      assert LineOk(ls[0]);
      JoinNoReturn(ls[1..]);
    }
  }

  /** Lines that were written are read back unchanged. */
  lemma WriteThenRead(ls: seq<string>)
    requires LinesOk(ls)
    ensures Lines(Join(ls)) == ls
  {
    JoinNoReturn(ls);
    TranslateIdentity(Join(ls));
    SplitJoin(ls);
  }
}
