/** Styles over commands: Enter and then Backspace, exactly, and short runs from a new editor that lose
    styles. */
module StyleRuns {
  import opened Basics
  import opened TipTap
  import opened InlineRoundTrip
  import opened EditorLines
  import opened EditorSteps
  import opened EditStyles

  // ---- Enter, then Backspace ----

  /** Enter parts the line of the caret: it is no image and no empty list item. */
  predicate Parts(line: EditorLine) {
    line.block != Image && !(IsListBlock(line.block) && line.text == "")
  }

  /** Enter, then Backspace over the separator it made. */
  function Undone(s: Snapshot): Snapshot
    requires Sane(s)
  {
    StepIsSane(s, Enter);
    Step(Step(s, Enter), Backspace(Caret(s)))
  }

  /** After Enter the line starts are known up to the caret, and so is where the caret is. */
  lemma PartedAt(s: Snapshot)
    requires Sane(s) && Parts(s.lines[CaretLine(s)])
    ensures var ix, col, at := CaretLine(s), Column(s.lines, Caret(s)), Caret(s);
            var after := SplitLines(s.lines, ix, col);
            && Parted(s) == Snapshot(after, at + 1, at + 1, false, s.readOnly) && at + 1 <= |Content(after)|
            && ix < |after| && LineStart(after, ix) + col == at
  {
    hide Content, LineStart, Locate, MarksUpTo, TailMarks;
    LocateExact(s.lines, Caret(s));
    var ix, col := CaretLine(s), Column(s.lines, Caret(s));
    var after := SplitLines(s.lines, ix, col);
    SplitLinesContent(s.lines, ix, col);
    assert after[..ix] == s.lines[..ix];
    LineStartLocal(after, s.lines, ix);
  }

  /** The lines once a line of text is in two. */
  lemma TwoLines(lines: Lines, ix: nat, col: nat)
    requires ix < |lines| && col <= |lines[ix].text| && Parts(lines[ix]) && lines[ix].block != CodeBlock
    ensures var two, after := SplitLine(lines[ix], col), SplitLines(lines, ix, col);
            && |after| == |lines| + 1 && after[ix] == two[0] && after[ix + 1] == two[1]
            && after[..ix] == lines[..ix] && after[ix + 2..] == lines[ix + 1..]
            && LineStart(after, ix + 1) == LineStart(after, ix) + col + 1
  {
    hide MarksUpTo, TailMarks;
  }

  /** The caret after Enter is at the start of the new line, and one before it is the end of the old. */
  lemma CaretOnNewLine(lines: Lines, ix: nat, col: nat, at: nat)
    requires ix + 1 < |lines| && |lines[ix].text| == col && LineStart(lines, ix) + col == at
    ensures at + 1 <= |Content(lines)| && LineStart(lines, ix + 1) == at + 1
    ensures Locate(lines, at) == ix && Column(lines, at) == col
    ensures Locate(lines, at + 1) == ix + 1 && Column(lines, at + 1) == 0
  {
    hide Content, Locate, Column;
    PositionRoundTrip(lines, ix, col);
    PositionRoundTrip(lines, ix + 1, 0);
  }

  lemma {:induction false} MarksUpToTwice(marks: seq<EditorMark>, col: nat)
    ensures MarksUpTo(MarksUpTo(marks, col), col) == MarksUpTo(marks, col)
  {
    if marks != [] {
      var rest := MarksUpTo(marks[1..], col);
      MarksUpToTwice(marks[1..], col);
      if marks[0].end <= col {
        assert ([marks[0]] + rest)[1..] == rest;
      } else {
        assert [] + rest == rest;
      }
    }
  }

  lemma {:induction false} MarksUpToAll(marks: seq<EditorMark>, col: nat)
    requires forall m :: m in marks ==> m.end <= col
    ensures MarksUpTo(marks, col) == marks
  {
    if marks != [] {
      MarksUpToAll(marks[1..], col);
    }
  }

  lemma {:induction false} EarlierStay(marks: seq<EditorMark>, start: nat, end: nat)
    requires start <= end && forall m :: m in marks ==> m.start <= m.end <= start
    ensures ShiftMarks(marks, start, end, 0) == marks
  {
    if marks != [] {
      EarlierStay(marks[1..], start, end);
    }
  }

  /** The line of the caret, and nothing else, has other marks. */
  function Remarked(lines: Lines, ix: nat, marks: seq<EditorMark>): Lines
    requires ix < |lines|
  {
    lines[ix := lines[ix].(marks := marks)]
  }

  /** Backspace in a part of the text without images. */
  lemma BackspacedOver(s: Snapshot, sl: nat, sc: nat, el: nat, ec: nat, at: nat)
    requires Sane(s) && s.selStart == s.selEnd == at + 1
    requires Locate(s.lines, at) == sl && Column(s.lines, at) == sc
    requires Locate(s.lines, at + 1) == el && Column(s.lines, at + 1) == ec
    requires sl <= el <= sl + 1 && sc <= |s.lines[sl].text| && ec <= |s.lines[el].text| && (sl == el ==> sc <= ec)
    requires s.lines[sl].block != Image && s.lines[el].block != Image
    requires ec == 0 ==> sl < el && !IsListBlock(s.lines[el].block)
    ensures Step(s, Backspace(at)) == WithCaret(s, ReplaceLines(s.lines, sl, sc, el, ec, ""), at)
  {
    hide Content, Locate, Column, LineStart, AllMarksInside, ReplaceLines, WithCaret;
    assert s.lines[sl..el + 1] == if sl == el then [s.lines[sl]] else [s.lines[sl], s.lines[el]];
    assert !HasImage(s.lines[sl..el + 1]);
    assert DeletedBetween(s, at, at + 1) == Replaced(s, at, at + 1, "");
  }

  /** Off lists the marks that end after the caret are gone. */
  lemma UndoneText(s: Snapshot)
    requires Sane(s) && Parts(s.lines[CaretLine(s)])
    requires !IsListBlock(s.lines[CaretLine(s)].block) && s.lines[CaretLine(s)].block != CodeBlock
    ensures var ix, col := CaretLine(s), Column(s.lines, Caret(s));
            Undone(s)
            == WithCaret(s, Remarked(s.lines, ix, MarksUpTo(s.lines[ix].marks, col)), Caret(s))
  {
    hide Content, Locate, Column, LineStart, MarksUpTo, TailMarks, AllMarksInside, WithCaret, SplitLines, Backspaced;
    var ix, col, at := CaretLine(s), Column(s.lines, Caret(s)), Caret(s);
    var line, t := s.lines[ix], Parted(s);
    StepIsSane(s, Enter);
    PartedAt(s);
    TwoLines(s.lines, ix, col);
    CaretOnNewLine(t.lines, ix, col, at);
    BackspacedOver(t, ix, col, ix + 1, 0, at);
    MarksUpToTwice(line.marks, col);
    assert line.text[..col][..col] + "" + line.text[col..][0..] == line.text;
    assert ReplacedLine(t.lines, ix, col, ix + 1, 0, "") == line.(marks := MarksUpTo(line.marks, col));
    assert ReplaceLines(t.lines, ix, col, ix + 1, 0, "") == Remarked(s.lines, ix, MarksUpTo(line.marks, col));
    SameCaret(s, t, Remarked(s.lines, ix, MarksUpTo(line.marks, col)), at);
  }

  lemma SameCaret(s: Snapshot, t: Snapshot, lines: Lines, offset: nat)
    requires s.readOnly == t.readOnly
    ensures WithCaret(s, lines, offset) == WithCaret(t, lines, offset)
  {
  }

  /** In a code block as well, although it stays one line. */
  lemma UndoneCode(s: Snapshot)
    requires Sane(s) && s.lines[CaretLine(s)].block == CodeBlock
    ensures var ix, col := CaretLine(s), Column(s.lines, Caret(s));
            Undone(s)
            == WithCaret(s, Remarked(s.lines, ix, MarksUpTo(s.lines[ix].marks, col)), Caret(s))
  {
    hide Content, Locate, Column, LineStart, MarksUpTo, AllMarksInside, WithCaret, Backspaced;
    var ix, col, at := CaretLine(s), Column(s.lines, Caret(s)), Caret(s);
    var line, t := s.lines[ix], Parted(s);
    var kept := MarksUpTo(line.marks, col);
    StepIsSane(s, Enter);
    PartedAt(s);
    assert t.lines == s.lines[ix := line.(text := line.text[..col] + "\n" + line.text[col..], marks := kept)];
    CaretInLine(t.lines, ix, col, at);
    BackspacedOver(t, ix, col, ix, col + 1, at);
    BreakRemoved(s.lines, t.lines, ix, col);
    SameCaret(s, t, Remarked(s.lines, ix, kept), at);
  }

  lemma BreakRemoved(lines: Lines, broken: Lines, ix: nat, col: nat)
    requires ix < |lines| && col <= |lines[ix].text| && AllMarksInside(broken)
    requires broken == lines[ix := lines[ix].(text := lines[ix].text[..col] + "\n" + lines[ix].text[col..],
                                              marks := MarksUpTo(lines[ix].marks, col))]
    ensures ReplaceLines(broken, ix, col, ix, col + 1, "") == Remarked(lines, ix, MarksUpTo(lines[ix].marks, col))
  {
    hide MarksUpTo, ShiftMarks, AllMarksInside;
    var line, kept := lines[ix], MarksUpTo(lines[ix].marks, col);
    KeptIsBefore(broken, ix, line.marks, col);
    EarlierStay(kept, col, col + 1);
    assert broken[ix].text[..col] + "" + broken[ix].text[col + 1..] == line.text;
    assert ReplacedLine(broken, ix, col, ix, col + 1, "") == line.(marks := kept);
  }

  lemma CaretInLine(lines: Lines, ix: nat, col: nat, at: nat)
    requires ix < |lines| && col < |lines[ix].text| && LineStart(lines, ix) + col == at
    ensures Locate(lines, at) == ix && Column(lines, at) == col
    ensures Locate(lines, at + 1) == ix && Column(lines, at + 1) == col + 1
  {
    hide Content, Locate, Column, LineStart;
    PositionRoundTrip(lines, ix, col);
    PositionRoundTrip(lines, ix, col + 1);
  }

  lemma KeptIsBefore(lines: Lines, ix: nat, marks: seq<EditorMark>, col: nat)
    requires ix < |lines| && AllMarksInside(lines) && lines[ix].marks == MarksUpTo(marks, col)
    ensures forall m :: m in lines[ix].marks ==> m.start <= m.end <= col
  {
    hide MarksUpTo;
    assert lines[ix] in lines;
    MarksUpToInside(marks, col);
  }

  /** In a list the two items are joined again, or the empty second one goes. */
  lemma UndoneItem(s: Snapshot)
    requires Sane(s) && Parts(s.lines[CaretLine(s)]) && IsListBlock(s.lines[CaretLine(s)].block)
    ensures var ix, col := CaretLine(s), Column(s.lines, Caret(s));
            Undone(s)
            == WithCaret(s, if col == |s.lines[ix].text| then s.lines
                            else JoinLines(SplitLines(s.lines, ix, col), ix + 1), Caret(s))
  {
    hide Content, Locate, Column, LineStart, MarksUpTo, TailMarks, AllMarksInside, WithCaret, SplitLines, JoinLines;
    var ix, col, at := CaretLine(s), Column(s.lines, Caret(s)), Caret(s);
    var line, t := s.lines[ix], Parted(s);
    StepIsSane(s, Enter);
    PartedAt(s);
    TwoLines(s.lines, ix, col);
    CaretOnNewLine(t.lines, ix, col, at);
    assert Step(t, Backspace(at)) == ListBackspaced(t, ix + 1);
    if col == |line.text| {
      WholeLineStays(s.lines, ix, col);
      assert LineRemoved(t.lines, ix + 1) == s.lines;
      assert ListLineBackspaced(t.lines, ix + 1) == s.lines;
      LineStartLocal(t.lines, s.lines, ix);
      assert line.text[..col] == line.text;
      SameCaret(s, t, s.lines, at);
    } else {
      assert line.text[col..] != "";
      SameCaret(s, t, JoinLines(t.lines, ix + 1), at);
    }
  }

  lemma WholeLineStays(lines: Lines, ix: nat, col: nat)
    requires ix < |lines| && AllMarksInside(lines) && col == |lines[ix].text|
    ensures SplitLine(lines[ix], col)[0] == lines[ix] && SplitLine(lines[ix], col)[1].text == ""
  {
    hide MarksUpTo, TailMarks;
    assert lines[ix] in lines;
    MarksUpToAll(lines[ix].marks, col);
    assert lines[ix].text[..col] == lines[ix].text;
  }

  lemma UpToExactly(marks: seq<EditorMark>, col: nat)
    requires forall m :: m in marks ==> m.start <= m.end
    ensures (forall p: nat :: StylesAt(MarksUpTo(marks, col), p) == StylesAt(marks, p)) <==> PlainFrom(marks, col)
  {
    hide StylesAt, MarksUpTo;
    if m :| m in marks && m.start < m.end && m.end > col {
      var p := Max(m.start, col);
      CoveredHasStyle(marks, m, p);
      HeadEndsBefore(marks, col, p);
      assert StylesAt(MarksUpTo(marks, col), p) != StylesAt(marks, p);
    } else {
      forall p: nat
        ensures StylesAt(MarksUpTo(marks, col), p) == StylesAt(marks, p)
      {
        if p < col {
          HeadStyles(marks, col, p);
        } else {
          HeadEndsBefore(marks, col, p);
          StylesAtOutside(marks, p);
        }
      }
    }
  }

  lemma RemarkedExactly(lines: Lines, ix: nat, col: nat)
    requires ix < |lines| && AllMarksInside(lines)
    ensures SameEverywhere(Remarked(lines, ix, MarksUpTo(lines[ix].marks, col)), lines) <==> PlainFrom(lines[ix].marks, col)
  {
    hide StylesAt, MarksUpTo, PlainFrom;
    assert lines[ix] in lines;
    var marks, after := lines[ix].marks, Remarked(lines, ix, MarksUpTo(lines[ix].marks, col));
    UpToExactly(marks, col);
    if PlainFrom(marks, col) {
      forall i, p: nat | 0 <= i < |lines|
        ensures StylesAt(after[i].marks, p) == StylesAt(lines[i].marks, p)
      {
      }
    } else {
      var p: nat :| StylesAt(MarksUpTo(marks, col), p) != StylesAt(marks, p);
      assert StylesAt(after[ix].marks, p) != StylesAt(lines[ix].marks, p);
    }
  }

  /** When the styles of a line outlive Enter and Backspace: in a list when no mark goes across the
      caret, elsewhere only when nothing after the caret is styled. */
  predicate OutliveEnter(line: EditorLine, col: nat) {
    if IsListBlock(line.block) then forall m :: m in line.marks ==> !Straddles(m, col)
    else PlainFrom(line.marks, col)
  }

  /** Enter and then Backspace over the separator it made: every line has the text and block it had,
      the caret is where it was, and every style is back exactly when they outlive Enter. */
  lemma EnterThenBackspaceExactly(s: Snapshot)
    requires Sane(s) && Parts(s.lines[CaretLine(s)])
    ensures var line, col := s.lines[CaretLine(s)], Column(s.lines, Caret(s));
            var back := Undone(s);
            && |back.lines| == |s.lines| && back.selStart == back.selEnd == Caret(s) && back.readOnly == s.readOnly
            && (forall i :: 0 <= i < |s.lines| ==>
                  back.lines[i].text == s.lines[i].text && back.lines[i].block == s.lines[i].block)
            && (SameEverywhere(back.lines, s.lines) <==> OutliveEnter(line, col))
  {
    hide Content, Locate, Column, LineStart, MarksUpTo, TailMarks, AllMarksInside, Step, SplitLines, JoinLines,
         SameEverywhere, PlainFrom;
    var ix, col := CaretLine(s), Column(s.lines, Caret(s));
    var line := s.lines[ix];
    if IsListBlock(line.block) {
      UndoneItem(s);
      if col == |line.text| {
        NothingStraddlesEnd(s.lines, ix);
      } else {
        JoinAfterSplit(s.lines, ix, col);
        StylesComeBackExactly(s.lines, ix, col);
      }
    } else {
      var after := Remarked(s.lines, ix, MarksUpTo(line.marks, col));
      if line.block == CodeBlock {
        UndoneCode(s);
      } else {
        UndoneText(s);
      }
      SameTexts(after, s.lines);
      RemarkedExactly(s.lines, ix, col);
    }
  }

  lemma NothingStraddlesEnd(lines: Lines, ix: nat)
    requires ix < |lines| && AllMarksInside(lines)
    ensures forall m :: m in lines[ix].marks ==> !Straddles(m, |lines[ix].text|)
    ensures SameEverywhere(lines, lines)
  {
    assert lines[ix] in lines;
  }

  lemma ImageParted(lines: Lines, ix: nat, col: nat)
    requires ix < |lines| && col <= |lines[ix].text| && lines[ix].block == Image
    ensures var after := SplitLines(lines, ix, col);
            && |after| == |lines| + 1 && after[ix] == lines[ix] && after[ix + 1] == DEFAULT_LINE
            && after[..ix] + after[ix + 1..] == lines[ix := DEFAULT_LINE]
            && LineStart(after, ix + 1) == LineStart(lines, ix) + |lines[ix].text| + 1
  {
    hide LineStart;
    var after := SplitLines(lines, ix, col);
    assert after[..ix] == lines[..ix];
    LineStartLocal(after, lines, ix);
    LineStartStep(after, ix + 1);
  }

  /** On an image Enter makes an empty paragraph below it, and Backspace there takes the image away. */
  lemma EnterThenBackspaceDropsImage(s: Snapshot)
    requires Sane(s) && s.lines[CaretLine(s)].block == Image
    ensures Undone(s).lines == s.lines[CaretLine(s) := DEFAULT_LINE]
  {
    hide Content, Locate, Column, LineStart, AllMarksInside, SplitLines;
    var ix, col := CaretLine(s), Column(s.lines, Caret(s));
    var after := SplitLines(s.lines, ix, col);
    ImageParted(s.lines, ix, col);
    PositionRoundTrip(after, ix + 1, 0);
    LocateExact(s.lines, Caret(s));
    StepIsSane(s, Enter);
    var at := LineStart(after, ix + 1);
    assert Parted(s) == Snapshot(after, at, at, false, s.readOnly);
    assert Backspaced(Parted(s), Caret(s)) == WithoutLine(Parted(s), ix);
  }

  // ---- Runs that lose styles ----

  lemma InOneLine(line: EditorLine, offset: nat)
    requires offset <= |line.text|
    ensures Content([line]) == line.text && Locate([line], offset) == 0 && Column([line], offset) == offset
  {
  }

  /** One line, with a selection. */
  function Alone(line: EditorLine, start: nat, end: nat): Snapshot {
    Snapshot([line], start, end, false, false)
  }

  function Typed(line: EditorLine, at: nat, text: string): EditorLine
    requires MarksInside(line) && at <= |line.text|
  {
    line.(text := line.text[..at] + text + line.text[at..], marks := ShiftMarks(line.marks, at, at, |text|))
  }

  lemma TypedLine(line: EditorLine, at: nat, text: string)
    requires MarksInside(line) && at <= |line.text|
    ensures AllMarksInside([line]) && ReplaceLines([line], 0, at, 0, at, text) == [Typed(line, at, text)]
  {
    hide ShiftMarks, MarksInside;
    assert forall l :: l in [line] ==> l == line;
  }

  lemma TypedAlone(line: EditorLine, at: nat, text: string)
    requires MarksInside(line) && line.block != Image && at <= |line.text| && text != ""
    ensures Sane(Alone(line, at, at))
    ensures Step(Alone(line, at, at), TypeOrPaste(text)) == Alone(Typed(line, at, text), at + |text|, at + |text|)
  {
    hide Content, Locate, Column, Typed, MarksInside, AllMarksInside, ReplaceLines, LineStart;
    InOneLine(line, at);
    TypedLine(line, at, text);
    assert |Typed(line, at, text).text| >= at + |text| by { TypedLonger(line, at, text); }
    InOneLine(Typed(line, at, text), at + |text|);
  }

  lemma TypedLonger(line: EditorLine, at: nat, text: string)
    requires MarksInside(line) && at <= |line.text|
    ensures |Typed(line, at, text).text| == |line.text| + |text|
  {
    hide ShiftMarks;
  }

  lemma ToggledAlone(line: EditorLine, start: nat, end: nat, kind: MarkKind)
    requires MarksInside(line) && start < end <= |line.text|
    ensures Sane(Alone(line, start, end))
    ensures Step(Alone(line, start, end), MarkSelection(Toggle(kind))) == Alone(ToggledLine(line, kind, start, end), start, end)
  {
    hide Content, Locate, Column, ToggledLine;
    InOneLine(line, start);
    InOneLine(line, end);
    assert OverSelection(Toggle(kind), [line], 0, start, 0, end) == [ToggledLine(line, kind, start, end)];
  }

  lemma SelectedAlone(line: EditorLine, start: nat, end: nat, at: nat, to: nat)
    requires MarksInside(line) && start <= end <= |line.text| && at <= to <= |line.text|
    ensures Sane(Alone(line, start, end))
    ensures Step(Alone(line, start, end), SelectAll) == Alone(line, 0, |line.text|)
    ensures Step(Alone(line, start, end), MoveTo(at)) == Alone(line, at, at)
    ensures Step(Alone(line, start, end), SelectUnit(at, to, false)) == Alone(line, at, to)
  {
    hide Content;
    InOneLine(line, end);
  }

  const ALL_BOLD := [EditorMark(0, 2, Bold, None)]

  function Line(kind: BlockKind, text: string, marks: seq<EditorMark>): EditorLine {
    EditorLine(kind, text, marks, None, None)
  }

  function Bolded(kind: BlockKind): seq<Command> {
    [TypeOrPaste("ab"), SetBlock(kind), SelectAll, MarkSelection(Toggle(Bold)), MoveTo(1)]
  }

  /** From a new editor: "ab" in a block of any kind, all bold, the caret in the middle. */
  lemma BoldedIs(kind: BlockKind)
    requires kind != Image && !kind.TaskItem?
    ensures AfterAll(Bolded(kind)) == Alone(Line(kind, "ab", ALL_BOLD), 1, 1)
  {
    hide Step;
    var e1 := [] + [TypeOrPaste("ab")];
    var e2 := e1 + [SetBlock(kind)];
    var e3 := e2 + [SelectAll];
    var e4 := e3 + [MarkSelection(Toggle(Bold))];
    assert e4 + [MoveTo(1)] == Bolded(kind);
    AfterOneMore([], TypeOrPaste("ab"));
    AfterOneMore(e1, SetBlock(kind));
    AfterOneMore(e2, SelectAll);
    AfterOneMore(e3, MarkSelection(Toggle(Bold)));
    AfterOneMore(e4, MoveTo(1));
    assert AfterAll([]) == Alone(DEFAULT_LINE, 0, 0);
    TypedAlone(DEFAULT_LINE, 0, "ab");
    assert ""[..0] + "ab" + ""[0..] == "ab" && ShiftMarks([], 0, 0, 2) == [];
    assert AfterAll(e1) == Alone(Line(Paragraph, "ab", []), 2, 2);
    var plain := Line(kind, "ab", []);
    BlockAlone(kind);
    SelectedAlone(plain, 2, 2, 0, 0);
    ToggledAlone(plain, 0, 2, Bold);
    assert ToggledLine(plain, Bold, 0, 2) == Line(kind, "ab", ALL_BOLD);
    SelectedAlone(Line(kind, "ab", ALL_BOLD), 0, 2, 1, 1);
  }

  lemma BlockAlone(kind: BlockKind)
    requires kind != Image && !kind.TaskItem?
    ensures Sane(Alone(Line(Paragraph, "ab", []), 2, 2))
    ensures Step(Alone(Line(Paragraph, "ab", []), 2, 2), SetBlock(kind)) == Alone(Line(kind, "ab", []), 2, 2)
  {
    hide Content, Locate;
    InOneLine(Line(Paragraph, "ab", []), 2);
    assert SetBlocks([Line(Paragraph, "ab", [])], 0, 0, kind) == [Line(kind, "ab", [])];
  }

  /** Bold text, parted in the middle and joined again, has lost styles, in a block of any kind. */
  lemma PartedBoldIsLost(kind: BlockKind)
    requires kind != Image && !kind.TaskItem?
    ensures var before, after := AfterAll(Bolded(kind)).lines, AfterAll(Bolded(kind) + [Enter, Backspace(1)]).lines;
            |after| == |before| && after[0].text == before[0].text == "ab" && !SameEverywhere(after, before)
  {
    hide Step, Content, Locate, Column, SameEverywhere;
    var s := AfterAll(Bolded(kind));
    BoldedIs(kind);
    AfterOneMore(Bolded(kind), Enter);
    AfterOneMore(Bolded(kind) + [Enter], Backspace(1));
    assert Bolded(kind) + [Enter] + [Backspace(1)] == Bolded(kind) + [Enter, Backspace(1)];
    InOneLine(s.lines[0], 1);
    EnterThenBackspaceExactly(s);
    assert ALL_BOLD[0] in s.lines[0].marks && Straddles(ALL_BOLD[0], 1);
  }

  /** A character typed into bold text takes the bold off all of it. */
  lemma TypedIntoBoldIsLost()
    ensures AfterAll(Bolded(Paragraph) + [TypeOrPaste("c")]).lines == [Line(Paragraph, "acb", [])]
  {
    hide Step;
    BoldedIs(Paragraph);
    AfterOneMore(Bolded(Paragraph), TypeOrPaste("c"));
    TypedAlone(Line(Paragraph, "ab", ALL_BOLD), 1, "c");
    assert "ab"[..1] + "c" + "ab"[1..] == "acb";
    assert ShiftMarks(ALL_BOLD, 1, 1, 1) == [] by { assert ALL_BOLD[1..] == []; }
  }

  /** Bold taken off the second of two bold characters goes from both. */
  lemma ToggledPartIsLost()
    ensures AfterAll(Bolded(Paragraph) + [SelectUnit(1, 2, false), MarkSelection(Toggle(Bold))]).lines
         == [Line(Paragraph, "ab", [])]
  {
    hide Step;
    var e1 := Bolded(Paragraph) + [SelectUnit(1, 2, false)];
    BoldedIs(Paragraph);
    AfterOneMore(Bolded(Paragraph), SelectUnit(1, 2, false));
    AfterOneMore(e1, MarkSelection(Toggle(Bold)));
    assert e1 + [MarkSelection(Toggle(Bold))] == Bolded(Paragraph) + [SelectUnit(1, 2, false), MarkSelection(Toggle(Bold))];
    var line := Line(Paragraph, "ab", ALL_BOLD);
    SelectedAlone(line, 1, 1, 1, 2);
    ToggledAlone(line, 1, 2, Bold);
    assert ALL_BOLD[0] in line.marks && ALL_BOLD[1..] == [];
    assert Cleared(ALL_BOLD, Bold, 1, 2) == [];
  }
}
