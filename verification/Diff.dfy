/**
 The line diff of plugins/gitclient/client.go: lines are compared by position, and a line one side does
 not have counts as empty in the comparison.
 */
module Diff {
  import opened Text

  datatype Line = Line(mark: char, text: string)

  function LineAt(lines: seq<string>, i: nat): string {
    if i < |lines| then lines[i] else ""
  }

  function Longer(m: nat, n: nat): nat {
    if m > n then m else n
  }

  /** What position `i` adds to the diff. */
  function Hunk(before: seq<string>, after: seq<string>, i: nat): seq<Line> {
    if LineAt(before, i) == LineAt(after, i) then [Line(' ', LineAt(before, i))]
    else (if i < |before| then [Line('-', before[i])] else []) + (if i < |after| then [Line('+', after[i])] else [])
  }

  function DiffUpTo(before: seq<string>, after: seq<string>, n: nat): seq<Line> {
    if n == 0 then [] else DiffUpTo(before, after, n - 1) + Hunk(before, after, n - 1)
  }

  function DiffOf(oldContent: string, newContent: string): seq<Line> {
    var before, after := SplitOn(oldContent, '\n'), SplitOn(newContent, '\n');
    DiffUpTo(before, after, Longer(|before|, |after|))
  }

  function PrintLine(line: Line): string {
    [line.mark] + line.text + ['\n']
  }

  function Print(lines: seq<Line>): string {
    if lines == [] then "" else Print(lines[..|lines| - 1]) + PrintLine(lines[|lines| - 1])
  }

  /** The buffer holds what it held before and the printed lines. */
  ghost predicate Holds(buf: string, start: string, lines: seq<Line>) {
    buf == start + Print(lines)
  }

  method WriteLine(buf: string, line: Line, ghost start: string, ghost lines: seq<Line>) returns (longer: string)
    requires Holds(buf, start, lines)
    ensures Holds(longer, start, lines + [line])
  {
    longer := buf + ([line.mark] + line.text + "\n");
    assert (lines + [line])[..|lines|] == lines;
  }

  /** The body of the loop: position `i` of both sides, one of which has it. */
  method WritePosition(buf: string, oldLines: seq<string>, newLines: seq<string>, i: nat, ghost start: string, ghost done: seq<Line>)
      returns (longer: string)
    requires Holds(buf, start, done)
    ensures Holds(longer, start, done + Hunk(oldLines, newLines, i))
  {
    hide Holds;
    longer := buf;
    var oldLine, newLine := "", "";
    if i < |oldLines| {
      oldLine := oldLines[i];
    }
    if i < |newLines| {
      newLine := newLines[i];
    }
    if oldLine == newLine {
      longer := WriteLine(longer, Line(' ', oldLine), start, done);
    } else {
      ghost var printed := done;
      if oldLine != "" || (i < |oldLines| && oldLine == "") {
        longer := WriteLine(longer, Line('-', oldLine), start, printed);
        printed := printed + [Line('-', oldLine)];
      }
      if newLine != "" || (i < |newLines| && newLine == "") {
        longer := WriteLine(longer, Line('+', newLine), start, printed);
        printed := printed + [Line('+', newLine)];
      }
      assert printed == done + Hunk(oldLines, newLines, i);
    }
  }

  lemma NothingPrinted(start: string)
    ensures Holds(start, start, [])
  {
  }

  method WriteDiff(start: string, oldLines: seq<string>, newLines: seq<string>) returns (buf: string)
    ensures Holds(buf, start, DiffUpTo(oldLines, newLines, Longer(|oldLines|, |newLines|)))
  {
    NothingPrinted(start);
    hide Holds, Hunk;
    buf := start;
    var maxLen := |oldLines|;
    if |newLines| > maxLen {
      maxLen := |newLines|;
    }
    for i := 0 to maxLen
      invariant Holds(buf, start, DiffUpTo(oldLines, newLines, i))
    {
      ghost var done := DiffUpTo(oldLines, newLines, i);
      buf := WritePosition(buf, oldLines, newLines, i, start, done);
      assert DiffUpTo(oldLines, newLines, i + 1) == done + Hunk(oldLines, newLines, i);
    }
  }

  /** Appends the diff to what the buffer holds. */
  method GenerateUnifiedDiff(start: string, oldContent: string, newContent: string) returns (buf: string)
    ensures buf == start + Print(DiffOf(oldContent, newContent))
  {
    var oldLines := SplitOn(oldContent, '\n');
    var newLines := SplitOn(newContent, '\n');
    buf := WriteDiff(start, oldLines, newLines);
  }

  // ----- reading a printed diff -----

  function ReadLines(parts: seq<string>): seq<Line> {
    if parts == [] then []
    else ReadLines(parts[..|parts| - 1]) + if parts[|parts| - 1] == "" then [] else [Line(parts[|parts| - 1][0], parts[|parts| - 1][1..])]
  }

  function Read(printed: string): seq<Line> {
    ReadLines(SplitOn(printed, '\n'))
  }

  predicate Printable(lines: seq<Line>) {
    forall i :: 0 <= i < |lines| ==> lines[i].mark != '\n' && '\n' !in lines[i].text
  }

  function Texts(lines: seq<Line>): seq<string> {
    seq(|lines|, i requires 0 <= i < |lines| => [lines[i].mark] + lines[i].text)
  }

  lemma {:induction false} PrintSplits(lines: seq<Line>)
    requires Printable(lines)
    ensures SplitOn(Print(lines), '\n') == Texts(lines) + [""]
  {
    if lines != [] {
      var before, last := lines[..|lines| - 1], lines[|lines| - 1];
      PrintSplits(before);
      assert Print(lines) == Print(before) + (([last.mark] + last.text) + ['\n'] + "");
      SplitTail(Print(before), Texts(before), [last.mark] + last.text);
      assert Texts(lines) == Texts(before) + [[last.mark] + last.text];
    }
  }

  /** A text that ends in a separator, continued by one more line. */
  lemma SplitTail(s: string, parts: seq<string>, text: string)
    requires SplitOn(s, '\n') == parts + [""] && '\n' !in text
    ensures SplitOn(s + (text + ['\n'] + ""), '\n') == parts + [text, ""]
  {
    if s == "" {
      assert SplitOn(s, '\n') == [""];
      assert parts == [];
      assert s + (text + ['\n'] + "") == text + ['\n'] + "";
      SplitConcat(text, "", '\n');
      SplitWhole(text, '\n');
    } else {
      LastIsSeparator(s, parts);
      var body := s[..|s| - 1];
      SplitConcat(body, "", '\n');
      assert s == body + ['\n'] + "";
      assert SplitOn(body, '\n') + [""] == parts + [""];
      assert (SplitOn(body, '\n') + [""])[..|parts|] == parts;
      assert s + (text + ['\n'] + "") == body + ['\n'] + (text + ['\n'] + "");
      SplitConcat(body, text + ['\n'] + "", '\n');
      SplitConcat(text, "", '\n');
      SplitWhole(text, '\n');
    }
  }

  lemma {:induction false} LastIsSeparator(s: string, parts: seq<string>)
    requires s != "" && SplitOn(s, '\n') == parts + [""]
    ensures s[|s| - 1] == '\n'
  {
    var rest := SplitOn(s[1..], '\n');
    if s[1..] != "" {
      if s[0] == '\n' {
        assert rest == (parts + [""])[1..];
        assert |parts| > 0;
        assert rest == parts[1..] + [""];
        LastIsSeparator(s[1..], parts[1..]);
      } else {
        assert ([[s[0]] + rest[0]] + rest[1..])[0] != "";
        assert |parts| > 0;
        assert rest[1..] == (parts + [""])[1..] == parts[1..] + [""];
        assert rest == ([rest[0]] + parts[1..]) + [""];
        LastIsSeparator(s[1..], [rest[0]] + parts[1..]);
      }
    }
  }

  lemma {:induction false} ReadTexts(lines: seq<Line>)
    ensures ReadLines(Texts(lines)) == lines
  {
    if lines != [] {
      var before, last := lines[..|lines| - 1], lines[|lines| - 1];
      ReadTexts(before);
      assert Texts(lines)[..|lines| - 1] == Texts(before);
      assert ([last.mark] + last.text)[1..] == last.text;
      assert before + [last] == lines;
    }
  }

  lemma ReadPrint(lines: seq<Line>)
    requires Printable(lines)
    ensures Read(Print(lines)) == lines
  {
    PrintSplits(lines);
    ReadParts(Texts(lines) + [""], lines);
  }

  lemma ReadParts(parts: seq<string>, lines: seq<Line>)
    requires parts == Texts(lines) + [""]
    ensures ReadLines(parts) == lines
  {
    ReadTexts(lines);
    assert parts[..|parts| - 1] == Texts(lines);
  }

  // ----- what a diff says about its two sides -----

  /** The lines with the mark of one side, or of both. */
  function Side(lines: seq<Line>, mark: char): seq<string> {
    if lines == [] then [] else
      var last := lines[|lines| - 1];
      Side(lines[..|lines| - 1], mark) + if last.mark == ' ' || last.mark == mark then [last.text] else []
  }

  lemma {:induction false} SideConcat(a: seq<Line>, b: seq<Line>, mark: char)
    ensures Side(a + b, mark) == Side(a, mark) + Side(b, mark)
  {
    if b == [] {
      assert a + b == a;
    } else {
      SideConcat(a, b[..|b| - 1], mark);
      assert (a + b)[..|a + b| - 1] == a + b[..|b| - 1];
    }
  }

  function Blanks(n: nat): (s: seq<string>)
    ensures |s| == n && forall i :: 0 <= i < n ==> s[i] == ""
  {
    seq(n, i => "")
  }

  /** The empty lines among positions `from` to `n` of `lines`. */
  function BlanksBetween(lines: seq<string>, from: nat, n: nat): nat {
    if n <= from then 0 else BlanksBetween(lines, from, n - 1) + if LineAt(lines, n - 1) == "" then 1 else 0
  }

  lemma SideOfOne(line: Line, mark: char)
    ensures Side([line], mark) == if line.mark == ' ' || line.mark == mark then [line.text] else []
  {
    assert [line][..0] == [];
  }

  /** What position `i` adds to a side. */
  function Contribution(own: seq<string>, other: seq<string>, i: nat): seq<string> {
    if i < |own| then [own[i]] else if LineAt(other, i) == "" then [""] else []
  }

  lemma HunkSides(before: seq<string>, after: seq<string>, i: nat)
    requires i < Longer(|before|, |after|)
    ensures Side(Hunk(before, after, i), '-') == Contribution(before, after, i)
    ensures Side(Hunk(before, after, i), '+') == Contribution(after, before, i)
  {
    var dropped := if i < |before| then [Line('-', before[i])] else [];
    var added := if i < |after| then [Line('+', after[i])] else [];
    SideOfOne(Line(' ', LineAt(before, i)), '-');
    SideOfOne(Line(' ', LineAt(before, i)), '+');
    SideOfOne(Line('-', LineAt(before, i)), '-');
    SideOfOne(Line('-', LineAt(before, i)), '+');
    SideOfOne(Line('+', LineAt(after, i)), '-');
    SideOfOne(Line('+', LineAt(after, i)), '+');
    SideConcat(dropped, added, '-');
    SideConcat(dropped, added, '+');
  }

  /** The first `n` lines of a side, with an empty line for each empty line of the other side beyond its end. */
  function Padded(own: seq<string>, other: seq<string>, n: nat): seq<string> {
    if n <= |own| then own[..n] else own + Blanks(BlanksBetween(other, |own|, n))
  }

  lemma PaddedNext(own: seq<string>, other: seq<string>, n: nat)
    ensures Padded(own, other, n + 1) == Padded(own, other, n) + Contribution(own, other, n)
  {
    if n < |own| {
      assert own[..n + 1] == own[..n] + [own[n]];
    } else {
      var k := BlanksBetween(other, |own|, n);
      assert n == |own| ==> own[..n] == own && Blanks(k) == [];
      assert Blanks(k + 1) == Blanks(k) + [""];
    }
  }

  lemma SideGrows(lines: seq<Line>, hunk: seq<Line>, mark: char, own: seq<string>, other: seq<string>, n: nat)
    requires Side(lines, mark) == Padded(own, other, n) && Side(hunk, mark) == Contribution(own, other, n)
    ensures Side(lines + hunk, mark) == Padded(own, other, n + 1)
  {
    SideConcat(lines, hunk, mark);
    PaddedNext(own, other, n);
  }

  lemma {:induction false} SidesUpTo(before: seq<string>, after: seq<string>, n: nat)
    requires n <= Longer(|before|, |after|)
    ensures Side(DiffUpTo(before, after, n), '-') == Padded(before, after, n)
    ensures Side(DiffUpTo(before, after, n), '+') == Padded(after, before, n)
  {
    if n > 0 {
      var m := n - 1;
      SidesUpTo(before, after, m);
      HunkSides(before, after, m);
      var d := DiffUpTo(before, after, m);
      SideGrows(d, Hunk(before, after, m), '-', before, after, m);
      SideGrows(d, Hunk(before, after, m), '+', after, before, m);
    }
  }

  /** The empty lines of the longer side beyond the end of `shorter`. */
  function ExtraBlanks(shorter: seq<string>, longer: seq<string>): nat {
    BlanksBetween(longer, |shorter|, Longer(|shorter|, |longer|))
  }

  lemma HunkIsPrintable(before: seq<string>, after: seq<string>, i: nat)
    requires forall i :: 0 <= i < |before| ==> '\n' !in before[i]
    requires forall i :: 0 <= i < |after| ==> '\n' !in after[i]
    ensures Printable(Hunk(before, after, i))
  {
  }

  lemma PrintableConcat(a: seq<Line>, b: seq<Line>)
    requires Printable(a) && Printable(b)
    ensures Printable(a + b)
  {
  }

  lemma NoLinesArePrintable()
    ensures Printable([])
  {
  }

  lemma {:induction false} UpToIsPrintable(before: seq<string>, after: seq<string>, n: nat)
    requires forall i :: 0 <= i < |before| ==> '\n' !in before[i]
    requires forall i :: 0 <= i < |after| ==> '\n' !in after[i]
    ensures Printable(DiffUpTo(before, after, n))
  {
    NoLinesArePrintable();
    hide Hunk, Printable;
    if n > 0 {
      UpToIsPrintable(before, after, n - 1);
      HunkIsPrintable(before, after, n - 1);
      PrintableConcat(DiffUpTo(before, after, n - 1), Hunk(before, after, n - 1));
    }
  }

  lemma ReadDiff(oldContent: string, newContent: string)
    ensures Read(Print(DiffOf(oldContent, newContent))) == DiffOf(oldContent, newContent)
  {
    SplitHasNoSeparator(oldContent, '\n');
    SplitHasNoSeparator(newContent, '\n');
    var before, after := SplitOn(oldContent, '\n'), SplitOn(newContent, '\n');
    UpToIsPrintable(before, after, Longer(|before|, |after|));
    ReadPrint(DiffOf(oldContent, newContent));
  }

  /** The positions before `n` at which both sides have a line and the lines differ: each takes two lines of the diff. */
  function Replaced(before: seq<string>, after: seq<string>, n: nat): nat {
    if n == 0 then 0
    else Replaced(before, after, n - 1) + if n <= |before| && n <= |after| && before[n - 1] != after[n - 1] then 1 else 0
  }

  lemma {:induction false} DiffLength(before: seq<string>, after: seq<string>, n: nat)
    requires n <= Longer(|before|, |after|)
    ensures |DiffUpTo(before, after, n)| == n + Replaced(before, after, n)
  {
    if n > 0 { DiffLength(before, after, n - 1); }
  }

  lemma {:induction false} DiffGrows(before: seq<string>, after: seq<string>, m: nat, n: nat)
    requires m <= n
    ensures DiffUpTo(before, after, m) <= DiffUpTo(before, after, n)
  {
    hide Hunk;
    if m < n { DiffGrows(before, after, m, n - 1); }
  }

  /** From entry `k` on the diff shows a kept line, or the old line and right after it the new one. */
  predicate Shows(d: seq<Line>, k: nat, before: seq<string>, after: seq<string>, i: nat)
    requires i < |before| || i < |after|
  {
    k < |d| &&
    if LineAt(before, i) == LineAt(after, i) then d[k] == Line(' ', LineAt(before, i))
    else if i >= |after| then d[k] == Line('-', before[i])
    else if i >= |before| then d[k] == Line('+', after[i])
    else k + 1 < |d| && d[k] == Line('-', before[i]) && d[k + 1] == Line('+', after[i])
  }

  lemma HunkShows(start: seq<Line>, d: seq<Line>, before: seq<string>, after: seq<string>, i: nat)
    requires (i < |before| || i < |after|) && start + Hunk(before, after, i) <= d
    ensures Shows(d, |start|, before, after, i)
  {
    var hunk := Hunk(before, after, i);
    assert |hunk| <= 2 && forall j :: 0 <= j < |hunk| ==> d[|start| + j] == (start + hunk)[|start| + j] == hunk[j];
  }

  /** Position by position, what the printed diff shows where, and no more than that. */
  lemma PositionIsPrinted(oldContent: string, newContent: string, i: nat)
    requires i < Longer(|SplitOn(oldContent, '\n')|, |SplitOn(newContent, '\n')|)
    ensures var before, after := SplitOn(oldContent, '\n'), SplitOn(newContent, '\n');
            var d := Read(Print(DiffOf(oldContent, newContent)));
            && Shows(d, i + Replaced(before, after, i), before, after, i)
            && |d| == Longer(|before|, |after|) + Replaced(before, after, Longer(|before|, |after|))
  {
    hide Hunk, Shows, SplitOn, Read, Print;
    ReadDiff(oldContent, newContent);
    var before, after := SplitOn(oldContent, '\n'), SplitOn(newContent, '\n');
    var n := Longer(|before|, |after|);
    DiffLength(before, after, i);
    DiffLength(before, after, n);
    DiffGrows(before, after, i + 1, n);
    HunkShows(DiffUpTo(before, after, i), DiffUpTo(before, after, n), before, after, i);
  }

  lemma PaddedIsWhole(own: seq<string>, other: seq<string>)
    ensures Padded(own, other, Longer(|own|, |other|)) == own + Blanks(ExtraBlanks(own, other))
  {
    if |own| >= |other| { assert Blanks(0) == []; }
  }

  /** The printed diff gives back both sides, each with one empty line more for every empty line the other has beyond its end. */
  lemma SidesRebuild(oldContent: string, newContent: string)
    ensures var printed := Print(DiffOf(oldContent, newContent));
            var before, after := SplitOn(oldContent, '\n'), SplitOn(newContent, '\n');
            && Side(Read(printed), '-') == before + Blanks(ExtraBlanks(before, after))
            && Side(Read(printed), '+') == after + Blanks(ExtraBlanks(after, before))
  {
    ReadDiff(oldContent, newContent);
    var before, after := SplitOn(oldContent, '\n'), SplitOn(newContent, '\n');
    SidesUpTo(before, after, Longer(|before|, |after|));
    PaddedIsWhole(before, after);
    PaddedIsWhole(after, before);
  }

  lemma {:induction false} NoBlanksBetween(lines: seq<string>, from: nat, n: nat)
    ensures BlanksBetween(lines, from, n) == 0 <==> forall i: nat :: from <= i < n ==> LineAt(lines, i) != ""
  {
    if n > from { NoBlanksBetween(lines, from, n - 1); }
  }

  /** No side has an empty line beyond the end of the other. */
  predicate NoBlankTail(before: seq<string>, after: seq<string>) {
    && (forall i :: |before| <= i < |after| ==> after[i] != "")
    && (forall i :: |after| <= i < |before| ==> before[i] != "")
  }

  lemma NoBlankTailMeans(before: seq<string>, after: seq<string>)
    ensures ExtraBlanks(before, after) == 0 && ExtraBlanks(after, before) == 0 <==> NoBlankTail(before, after)
  {
    NoBlanksBetween(after, |before|, Longer(|before|, |after|));
    NoBlanksBetween(before, |after|, Longer(|after|, |before|));
    assert forall i :: |before| <= i < |after| ==> LineAt(after, i) == after[i];
    assert forall i :: |after| <= i < |before| ==> LineAt(before, i) == before[i];
  }

  /** Joined again, the two sides are the two contents exactly when no side has an empty line beyond the end of the other. */
  lemma SidesAreExactWhen(oldContent: string, newContent: string)
    ensures var d := Read(Print(DiffOf(oldContent, newContent)));
            && (|Side(d, '-')| >= 1 && |Side(d, '+')| >= 1)
            && (JoinWith(Side(d, '-'), '\n') == oldContent && JoinWith(Side(d, '+'), '\n') == newContent
                <==> NoBlankTail(SplitOn(oldContent, '\n'), SplitOn(newContent, '\n')))
  {
    var before, after := SplitOn(oldContent, '\n'), SplitOn(newContent, '\n');
    var d := Read(Print(DiffOf(oldContent, newContent)));
    SidesRebuild(oldContent, newContent);
    NoBlankTailMeans(before, after);
    JoinIsExact(oldContent, Side(d, '-'), ExtraBlanks(before, after));
    JoinIsExact(newContent, Side(d, '+'), ExtraBlanks(after, before));
  }

  lemma JoinIsExact(content: string, side: seq<string>, blanks: nat)
    requires side == SplitOn(content, '\n') + Blanks(blanks)
    ensures JoinWith(side, '\n') == content <==> blanks == 0
  {
    JoinSplit(content, '\n');
    JoinLength(SplitOn(content, '\n'), blanks);
    if blanks == 0 { assert side == SplitOn(content, '\n'); }
  }

  lemma {:induction false} JoinLength(parts: seq<string>, blanks: nat)
    requires |parts| >= 1
    ensures |JoinWith(parts + Blanks(blanks), '\n')| == |JoinWith(parts, '\n')| + blanks
    decreases |parts|, blanks
  {
    if |parts| > 1 {
      JoinLength(parts[1..], blanks);
      assert (parts + Blanks(blanks))[1..] == parts[1..] + Blanks(blanks);
    } else if blanks == 0 {
      assert parts + Blanks(0) == parts;
    } else {
      assert (parts + Blanks(blanks))[1..] == [""] + Blanks(blanks - 1);
      JoinLength([""], blanks - 1);
    }
  }

  // ----- how far a diff determines its inputs -----

  function TrimBlanks(lines: seq<string>): seq<string> {
    if lines != [] && lines[|lines| - 1] == "" then TrimBlanks(lines[..|lines| - 1]) else lines
  }

  lemma {:induction false} TrimIgnoresBlanks(lines: seq<string>, n: nat)
    ensures TrimBlanks(lines + Blanks(n)) == TrimBlanks(lines)
  {
    if n == 0 {
      assert lines + Blanks(0) == lines;
    } else {
      TrimIgnoresBlanks(lines, n - 1);
      assert (lines + Blanks(n))[..|lines| + n - 1] == lines + Blanks(n - 1);
    }
  }

  /** Equal printed diffs have equal inputs up to empty lines at the end. */
  lemma DiffDeterminesInputs(old1: string, new1: string, old2: string, new2: string)
    requires Print(DiffOf(old1, new1)) == Print(DiffOf(old2, new2))
    ensures TrimBlanks(SplitOn(old1, '\n')) == TrimBlanks(SplitOn(old2, '\n'))
    ensures TrimBlanks(SplitOn(new1, '\n')) == TrimBlanks(SplitOn(new2, '\n'))
  {
    SidesRebuild(old1, new1);
    SidesRebuild(old2, new2);
    var b1, a1, b2, a2 := SplitOn(old1, '\n'), SplitOn(new1, '\n'), SplitOn(old2, '\n'), SplitOn(new2, '\n');
    TrimIgnoresBlanks(b1, ExtraBlanks(b1, a1));
    TrimIgnoresBlanks(b2, ExtraBlanks(b2, a2));
    TrimIgnoresBlanks(a1, ExtraBlanks(a1, b1));
    TrimIgnoresBlanks(a2, ExtraBlanks(a2, b2));
  }

  /** Two different changes with one printed diff: the trailing newline of the old side is not shown. */
  lemma DiffsCollide()
    ensures Print(DiffOf("a", "a\n")) == Print(DiffOf("a\n", "a\n"))
  {
    SplitWhole("a", '\n');
    assert "a\n" == "a" + ['\n'] + "";
    SplitConcat("a", "", '\n');
    var d1, d2 := DiffOf("a", "a\n"), DiffOf("a\n", "a\n");
    assert d1 == DiffUpTo(["a"], ["a", ""], 2) && d2 == DiffUpTo(["a", ""], ["a", ""], 2);
    assert DiffUpTo(["a"], ["a", ""], 1) == [Line(' ', "a")] == DiffUpTo(["a", ""], ["a", ""], 1);
  }

  // ----- which changes share their diff with another -----

  /** The shorter side could have one empty line more, or one less, without a trace. */
  predicate Ambiguous(before: seq<string>, after: seq<string>) {
    var m := if |before| < |after| then |before| else |after|;
    || (|before| < |after| && after[m] == "")
    || (|after| < |before| && before[m] == "")
    || (m >= 2 && before[m - 1] == "" && after[m - 1] == "")
  }

  lemma HunkNotEmpty(before: seq<string>, after: seq<string>, i: nat)
    requires i < Longer(|before|, |after|)
    ensures 1 <= |Hunk(before, after, i)| <= 2
    ensures |Hunk(before, after, i)| == 2 ==> Hunk(before, after, i)[0].mark == '-' && Hunk(before, after, i)[1].mark == '+'
    ensures |Hunk(before, after, i)| == 1 && Hunk(before, after, i)[0].mark == '+' ==> i < |after|
    ensures |Hunk(before, after, i)| == 1 && Hunk(before, after, i)[0].mark == '-' ==> i >= |after|
  {
  }

  lemma DiffNext(before: seq<string>, after: seq<string>, n: nat)
    ensures DiffUpTo(before, after, n + 1) == DiffUpTo(before, after, n) + Hunk(before, after, n)
    ensures DiffUpTo(before, after, 0) == []
  {
  }

  /** A line added alone does not follow a line dropped alone: the end of a diff shows how many lines its last position has. */
  lemma LastHunkSize(b1: seq<string>, a1: seq<string>, n1: nat, b2: seq<string>, a2: seq<string>, n2: nat)
    requires 0 < n1 <= Longer(|b1|, |a1|) && 0 < n2 <= Longer(|b2|, |a2|)
    requires DiffUpTo(b1, a1, n1) == DiffUpTo(b2, a2, n2)
    ensures |Hunk(b2, a2, n2 - 1)| == 2 ==> |Hunk(b1, a1, n1 - 1)| == 2
  {
    hide DiffUpTo, Hunk;
    var d, h1, h2 := DiffUpTo(b1, a1, n1), Hunk(b1, a1, n1 - 1), Hunk(b2, a2, n2 - 1);
    HunkNotEmpty(b1, a1, n1 - 1);
    HunkNotEmpty(b2, a2, n2 - 1);
    DiffNext(b1, a1, n1 - 1);
    DiffNext(b2, a2, n2 - 1);
    if |h2| == 2 && |h1| == 1 {
      var front1, front2 := DiffUpTo(b1, a1, n1 - 1), DiffUpTo(b2, a2, n2 - 1);
      assert d == front1 + h1 == front2 + h2;
      assert d[|d| - 1] == h1[0] == h2[1] && d[|d| - 2] == h2[0];
      assert front1[|front1| - 1].mark == '-';
      LastBefore(b1, a1, n1 - 1);
      assert false;
    }
  }

  /** What stands before a position that the new side has is not a dropped line. */
  lemma LastBefore(before: seq<string>, after: seq<string>, n: nat)
    requires n < |after| && DiffUpTo(before, after, n) != []
    ensures DiffUpTo(before, after, n)[|DiffUpTo(before, after, n)| - 1].mark != '-'
  {
    hide DiffUpTo, Hunk;
    DiffNext(before, after, if n > 0 then n - 1 else 0);
    var front, h := DiffUpTo(before, after, n - 1), Hunk(before, after, n - 1);
    HunkNotEmpty(before, after, n - 1);
    assert (front + h)[|front + h| - 1] == h[|h| - 1];
  }

  lemma {:induction false} SameHunks(b1: seq<string>, a1: seq<string>, n1: nat, b2: seq<string>, a2: seq<string>, n2: nat)
    requires n1 <= Longer(|b1|, |a1|) && n2 <= Longer(|b2|, |a2|)
    requires DiffUpTo(b1, a1, n1) == DiffUpTo(b2, a2, n2)
    ensures n1 == n2 && forall i :: 0 <= i < n1 ==> Hunk(b1, a1, i) == Hunk(b2, a2, i)
    decreases n1
  {
    hide DiffUpTo, Hunk;
    DiffNext(b1, a1, if n1 > 0 then n1 - 1 else 0);
    DiffNext(b2, a2, if n2 > 0 then n2 - 1 else 0);
    if n1 > 0 { HunkNotEmpty(b1, a1, n1 - 1); }
    if n2 > 0 { HunkNotEmpty(b2, a2, n2 - 1); }
    if n1 > 0 && n2 > 0 {
      LastHunkSize(b1, a1, n1, b2, a2, n2);
      LastHunkSize(b2, a2, n2, b1, a1, n1);
      EqualEnds(DiffUpTo(b1, a1, n1 - 1), Hunk(b1, a1, n1 - 1), DiffUpTo(b2, a2, n2 - 1), Hunk(b2, a2, n2 - 1));
      SameHunks(b1, a1, n1 - 1, b2, a2, n2 - 1);
    }
  }

  lemma EqualEnds<T>(a: seq<T>, b: seq<T>, c: seq<T>, d: seq<T>)
    requires a + b == c + d && |b| == |d|
    ensures a == c && b == d
  {
    assert a == (a + b)[..|a|] && c == (c + d)[..|c|];
    assert b == (a + b)[|a|..] && d == (c + d)[|c|..];
  }

  /** What a position shows of the two sides: their lines, and unless it is an unmarked empty line, whether they have it. */
  lemma HunkTells(b1: seq<string>, a1: seq<string>, b2: seq<string>, a2: seq<string>, i: nat)
    requires i < Longer(|b1|, |a1|) && i < Longer(|b2|, |a2|) && Hunk(b1, a1, i) == Hunk(b2, a2, i)
    ensures LineAt(b1, i) == LineAt(b2, i) && LineAt(a1, i) == LineAt(a2, i)
    ensures Hunk(b1, a1, i) != [Line(' ', "")] ==> (i < |b1| <==> i < |b2|) && (i < |a1| <==> i < |a2|)
  {
    var h := Hunk(b1, a1, i);
    HunkNotEmpty(b1, a1, i);
    HunkNotEmpty(b2, a2, i);
    assert h[0].mark == ' ' <==> LineAt(b1, i) == LineAt(a1, i);
    assert h[0].mark == ' ' <==> LineAt(b2, i) == LineAt(a2, i);
  }

  lemma BlankHunk(before: seq<string>, after: seq<string>, i: nat)
    requires i < Longer(|before|, |after|)
    ensures Hunk(before, after, i) == [Line(' ', "")] <==> LineAt(before, i) == LineAt(after, i) == ""
  {
    HunkNotEmpty(before, after, i);
  }

  lemma SameLengths(b1: seq<string>, a1: seq<string>, b2: seq<string>, a2: seq<string>)
    requires b1 != [] && a1 != [] && b2 != [] && a2 != [] && !Ambiguous(b1, a1)
    requires Longer(|b1|, |a1|) == Longer(|b2|, |a2|)
    requires forall i :: 0 <= i < Longer(|b1|, |a1|) ==> Hunk(b1, a1, i) == Hunk(b2, a2, i)
    ensures |b1| == |b2| && |a1| == |a2|
  {
    var m := if |b1| < |a1| then |b1| else |a1|;
    hide Hunk;
    HunkTells(b1, a1, b2, a2, m - 1);
    BlankHunk(b1, a1, m - 1);
    if |b1| != |a1| {
      HunkTells(b1, a1, b2, a2, m);
      BlankHunk(b1, a1, m);
    }
  }

  lemma HunksTellLists(b1: seq<string>, a1: seq<string>, b2: seq<string>, a2: seq<string>)
    requires b1 != [] && a1 != [] && b2 != [] && a2 != [] && !Ambiguous(b1, a1)
    requires Longer(|b1|, |a1|) == Longer(|b2|, |a2|)
    requires forall i :: 0 <= i < Longer(|b1|, |a1|) ==> Hunk(b1, a1, i) == Hunk(b2, a2, i)
    ensures b1 == b2 && a1 == a2
  {
    SameLengths(b1, a1, b2, a2);
    forall i: nat
      ensures LineAt(b1, i) == LineAt(b2, i) && LineAt(a1, i) == LineAt(a2, i)
    {
      if i < Longer(|b1|, |a1|) { HunkTells(b1, a1, b2, a2, i); }
    }
    SameLinesAreEqual(b1, b2);
    SameLinesAreEqual(a1, a2);
  }

  lemma {:induction false} SameHunksSameDiff(b1: seq<string>, a1: seq<string>, b2: seq<string>, a2: seq<string>, n: nat)
    requires forall i :: 0 <= i < n ==> Hunk(b1, a1, i) == Hunk(b2, a2, i)
    ensures DiffUpTo(b1, a1, n) == DiffUpTo(b2, a2, n)
  {
    hide Hunk;
    if n > 0 { SameHunksSameDiff(b1, a1, b2, a2, n - 1); }
  }

  lemma HunkIsSame(b1: seq<string>, a1: seq<string>, b2: seq<string>, a2: seq<string>, i: nat)
    requires LineAt(b1, i) == LineAt(b2, i) && LineAt(a1, i) == LineAt(a2, i)
    requires LineAt(b1, i) == LineAt(a1, i) || ((i < |b1| <==> i < |b2|) && (i < |a1| <==> i < |a2|))
    ensures Hunk(b1, a1, i) == Hunk(b2, a2, i)
  {
  }

  function LineDiff(before: seq<string>, after: seq<string>): seq<Line> {
    DiffUpTo(before, after, Longer(|before|, |after|))
  }

  lemma BlankAtEnd(lines: seq<string>)
    ensures SameLineAt(lines + [""], lines)
    ensures lines != [] && lines[|lines| - 1] == "" ==> SameLineAt(lines[..|lines| - 1], lines)
  {
  }

  /** `changed` is the side `lines` with or without an empty line at its end, where the other side is empty as well. */
  ghost predicate DiffersByBlank(lines: seq<string>, changed: seq<string>, other: seq<string>) {
    && SameLineAt(changed, lines)
    && forall i: nat :: (i < |changed| <==> i < |lines|) || LineAt(lines, i) == LineAt(other, i)
  }

  lemma BlankLeavesNoTrace(lines: seq<string>, changed: seq<string>, other: seq<string>)
    requires DiffersByBlank(lines, changed, other)
    ensures forall i: nat :: Hunk(changed, other, i) == Hunk(lines, other, i) && Hunk(other, changed, i) == Hunk(other, lines, i)
  {
    hide Hunk, LineAt;
    forall i: nat
      ensures Hunk(changed, other, i) == Hunk(lines, other, i) && Hunk(other, changed, i) == Hunk(other, lines, i)
    {
      HunkIsSame(changed, other, lines, other, i);
      HunkIsSame(other, changed, other, lines, i);
    }
  }

  /** The shorter side with one empty line more or less. */
  lemma ShorterCanChange(shorter: seq<string>, longer: seq<string>) returns (changed: seq<string>)
    requires shorter != [] && |shorter| <= |longer| && Ambiguous(shorter, longer)
    ensures changed != [] && changed != shorter && |changed| <= |longer| && DiffersByBlank(shorter, changed, longer)
    ensures forall x :: x in changed ==> x in shorter || x == ""
  {
    var m := |shorter|;
    BlankAtEnd(shorter);
    changed := if m < |longer| && longer[m] == "" then shorter + [""] else shorter[..m - 1];
    assert |changed| != m;
  }

  /** The empty line that leaves no trace, added to the shorter side or taken from it. */
  lemma AnotherPair(before: seq<string>, after: seq<string>) returns (b: seq<string>, a: seq<string>)
    requires before != [] && after != [] && Ambiguous(before, after)
    ensures b != [] && a != [] && (b != before || a != after) && LineDiff(b, a) == LineDiff(before, after)
    ensures forall x :: x in b ==> x in before || x == ""
    ensures forall x :: x in a ==> x in after || x == ""
  {
    b, a := before, after;
    if |before| <= |after| {
      b := ShorterCanChange(before, after);
      BlankLeavesNoTrace(before, b, after);
    } else {
      a := ShorterCanChange(after, before);
      BlankLeavesNoTrace(after, a, before);
    }
    hide Hunk, DiffersByBlank;
    SameHunksSameDiff(b, a, before, after, Longer(|before|, |after|));
  }

  /** Some other change is printed the same. */
  ghost predicate SharesItsDiff(oldContent: string, newContent: string) {
    exists old2, new2 :: (old2 != oldContent || new2 != newContent)
      && Print(DiffOf(old2, new2)) == Print(DiffOf(oldContent, newContent))
  }

  /** The printed diff determines the change exactly when no empty line at the end of the shorter side could come or go. */
  lemma SharesItsDiffExactlyWhen(oldContent: string, newContent: string)
    ensures SharesItsDiff(oldContent, newContent) <==> Ambiguous(SplitOn(oldContent, '\n'), SplitOn(newContent, '\n'))
  {
    hide Print, DiffUpTo, Ambiguous, SplitOn;
    var before, after := SplitOn(oldContent, '\n'), SplitOn(newContent, '\n');
    if Ambiguous(before, after) {
      var b, a := AnotherPair(before, after);
      var old2, new2 := ContentsOf(oldContent, newContent, b, a);
      assert DiffOf(old2, new2) == LineDiff(b, a) == DiffOf(oldContent, newContent);
      assert old2 != oldContent || new2 != newContent;
    } else {
      forall old2, new2 | Print(DiffOf(old2, new2)) == Print(DiffOf(oldContent, newContent))
        ensures old2 == oldContent && new2 == newContent
      {
        SamePrintSameChange(oldContent, newContent, old2, new2);
      }
    }
  }

  lemma SamePrintSameChange(old1: string, new1: string, old2: string, new2: string)
    requires Print(DiffOf(old1, new1)) == Print(DiffOf(old2, new2))
    requires !Ambiguous(SplitOn(old1, '\n'), SplitOn(new1, '\n'))
    ensures old1 == old2 && new1 == new2
  {
    hide Print, DiffOf, Hunk, Ambiguous, SplitOn;
    SamePrintSameHunks(old1, new1, old2, new2);
    HunksTellLists(SplitOn(old1, '\n'), SplitOn(new1, '\n'), SplitOn(old2, '\n'), SplitOn(new2, '\n'));
    SplitIsInjective(old1, old2);
    SplitIsInjective(new1, new2);
  }

  lemma SplitIsInjective(s: string, t: string)
    requires SplitOn(s, '\n') == SplitOn(t, '\n')
    ensures s == t
  {
    JoinSplit(s, '\n');
    JoinSplit(t, '\n');
  }

  lemma SamePrintSameHunks(old1: string, new1: string, old2: string, new2: string)
    requires Print(DiffOf(old1, new1)) == Print(DiffOf(old2, new2))
    ensures var b1, a1, b2, a2 := SplitOn(old1, '\n'), SplitOn(new1, '\n'), SplitOn(old2, '\n'), SplitOn(new2, '\n');
            && Longer(|b1|, |a1|) == Longer(|b2|, |a2|)
            && forall i :: 0 <= i < Longer(|b1|, |a1|) ==> Hunk(b1, a1, i) == Hunk(b2, a2, i)
  {
    ReadDiff(old1, new1);
    ReadDiff(old2, new2);
    var b1, a1, b2, a2 := SplitOn(old1, '\n'), SplitOn(new1, '\n'), SplitOn(old2, '\n'), SplitOn(new2, '\n');
    SameHunks(b1, a1, Longer(|b1|, |a1|), b2, a2, Longer(|b2|, |a2|));
  }

  lemma ContentsOf(oldContent: string, newContent: string, b: seq<string>, a: seq<string>) returns (old2: string, new2: string)
    requires b != [] && a != []
    requires forall x :: x in b ==> x in SplitOn(oldContent, '\n') || x == ""
    requires forall x :: x in a ==> x in SplitOn(newContent, '\n') || x == ""
    ensures SplitOn(old2, '\n') == b && SplitOn(new2, '\n') == a
  {
    SplitHasNoSeparator(oldContent, '\n');
    SplitHasNoSeparator(newContent, '\n');
    assert forall k :: 0 <= k < |b| ==> b[k] in b;
    assert forall k :: 0 <= k < |a| ==> a[k] in a;
    old2, new2 := JoinWith(b, '\n'), JoinWith(a, '\n');
    SplitJoin(b, '\n');
    SplitJoin(a, '\n');
  }

  lemma {:induction false} AllKeptUpTo(before: seq<string>, after: seq<string>, n: nat)
    requires n <= Longer(|before|, |after|)
    ensures (forall i :: 0 <= i < |DiffUpTo(before, after, n)| ==> DiffUpTo(before, after, n)[i].mark == ' ')
        <==> (forall i: nat :: i < n ==> LineAt(before, i) == LineAt(after, i))
  {
    hide Hunk, LineAt;
    if n > 0 {
      AllKeptUpTo(before, after, n - 1);
      HunkKept(before, after, n - 1);
      AllKeptConcat(DiffUpTo(before, after, n - 1), Hunk(before, after, n - 1));
      assert DiffUpTo(before, after, n) == DiffUpTo(before, after, n - 1) + Hunk(before, after, n - 1);
      assert (forall i: nat :: i < n ==> LineAt(before, i) == LineAt(after, i))
          <==> (forall i: nat :: i < n - 1 ==> LineAt(before, i) == LineAt(after, i)) && LineAt(before, n - 1) == LineAt(after, n - 1);
    }
  }

  lemma HunkKept(before: seq<string>, after: seq<string>, i: nat)
    requires i < Longer(|before|, |after|)
    ensures (forall k :: 0 <= k < |Hunk(before, after, i)| ==> Hunk(before, after, i)[k].mark == ' ')
        <==> LineAt(before, i) == LineAt(after, i)
  {
    assert |Hunk(before, after, i)| > 0 && (Hunk(before, after, i)[0].mark == ' ' ==> LineAt(before, i) == LineAt(after, i));
  }

  lemma AllKeptConcat(d: seq<Line>, h: seq<Line>)
    ensures (forall i :: 0 <= i < |d + h| ==> (d + h)[i].mark == ' ')
        <==> (forall i :: 0 <= i < |d| ==> d[i].mark == ' ') && (forall i :: 0 <= i < |h| ==> h[i].mark == ' ')
  {
    assert forall i :: 0 <= i < |d| ==> (d + h)[i] == d[i];
    assert forall i :: 0 <= i < |h| ==> (d + h)[|d| + i] == h[i];
  }

  lemma {:induction false} TrimmedLine(lines: seq<string>, i: nat)
    ensures LineAt(TrimBlanks(lines), i) == LineAt(lines, i)
  {
    if lines != [] && lines[|lines| - 1] == "" { TrimmedLine(lines[..|lines| - 1], i); }
  }

  lemma {:induction false} TrimEndsInText(lines: seq<string>)
    ensures |TrimBlanks(lines)| <= |lines|
    ensures TrimBlanks(lines) != [] ==> TrimBlanks(lines)[|TrimBlanks(lines)| - 1] != ""
  {
    if lines != [] && lines[|lines| - 1] == "" { TrimEndsInText(lines[..|lines| - 1]); }
  }

  /** A diff shows no change exactly when its inputs are equal up to empty lines at the end. */
  lemma ShowsNoChangeExactlyWhen(oldContent: string, newContent: string)
    ensures var d := Read(Print(DiffOf(oldContent, newContent)));
            (forall i :: 0 <= i < |d| ==> d[i].mark == ' ')
            <==> TrimBlanks(SplitOn(oldContent, '\n')) == TrimBlanks(SplitOn(newContent, '\n'))
  {
    ReadDiff(oldContent, newContent);
    var before, after := SplitOn(oldContent, '\n'), SplitOn(newContent, '\n');
    var n := Longer(|before|, |after|);
    AllKeptUpTo(before, after, n);
    SameLinesExactlyWhen(before, after, n);
  }

  lemma SameLinesExactlyWhen(before: seq<string>, after: seq<string>, n: nat)
    requires |before| <= n && |after| <= n
    ensures (forall i: nat :: i < n ==> LineAt(before, i) == LineAt(after, i)) <==> TrimBlanks(before) == TrimBlanks(after)
  {
    hide TrimBlanks, LineAt;
    var b, a := TrimBlanks(before), TrimBlanks(after);
    TrimKeepsLines(before);
    TrimKeepsLines(after);
    SameUpToEnd(before, after, n);
    if SameLineAt(before, after) {
      TrimEndsInText(before);
      TrimEndsInText(after);
      assert SameLineAt(b, a);
      NoLonger(b, a);
      NoLonger(a, b);
      SameLinesAreEqual(b, a);
    }
  }

  lemma TrimKeepsLines(lines: seq<string>)
    ensures SameLineAt(TrimBlanks(lines), lines)
  {
    hide TrimBlanks, LineAt;
    forall i: nat
      ensures LineAt(TrimBlanks(lines), i) == LineAt(lines, i)
    {
      TrimmedLine(lines, i);
    }
  }

  lemma SameUpToEnd(a: seq<string>, b: seq<string>, n: nat)
    requires |a| <= n && |b| <= n
    ensures (forall i: nat :: i < n ==> LineAt(a, i) == LineAt(b, i)) <==> SameLineAt(a, b)
  {
    assert forall i: nat :: i >= n ==> LineAt(a, i) == LineAt(b, i);
  }

  ghost predicate SameLineAt(a: seq<string>, b: seq<string>) {
    forall i: nat :: LineAt(a, i) == LineAt(b, i)
  }

  /** A list that does not end in an empty line is no longer than one with the same lines. */
  lemma NoLonger(a: seq<string>, b: seq<string>)
    requires SameLineAt(a, b) && (a != [] ==> a[|a| - 1] != "")
    ensures |a| <= |b|
  {
    assert a != [] ==> LineAt(a, |a| - 1) == LineAt(b, |a| - 1);
  }

  lemma SameLinesAreEqual(a: seq<string>, b: seq<string>)
    requires SameLineAt(a, b) && |a| == |b|
    ensures a == b
  {
    assert forall i :: 0 <= i < |a| ==> a[i] == LineAt(a, i) == LineAt(b, i) == b[i];
  }
}
