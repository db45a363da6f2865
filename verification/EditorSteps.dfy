/** The editor as a function: what each command makes of the lines and the selection, and what every
    run of commands keeps. */
module EditorSteps {
  import opened Basics
  import opened TipTap
  import opened EditorLines
  import opened LoadedLines
  import DocRoundTrip

  /** A user command. Grapheme and word boundaries, and the mouse position, are arbitrary offsets. */
  datatype Command =
    | MoveTo(offset: nat)
    | SelectTo(offset: nat)
    | SelectAll
    | SelectUnit(start: nat, end: nat, reversed: bool)
    | TypeOrPaste(text: string)
    | Backspace(previous: nat)
    | Delete(next: nat)
    | Enter
    | ShiftEnter
    | MarkSelection(edit: MarkEdit)
    | SetBlock(kind: BlockKind)
    | ToggleCodeBlock
    | PlaceImage(src: string)
    | SetReadOnly(on: bool)
    | SetDoc(doc: Option<Node>)
    | ReadDoc

  /** Everything a command can see and change; the rest of the editor is derived from it. */
  datatype Snapshot = Snapshot(lines: Lines, selStart: nat, selEnd: nat, reversed: bool, readOnly: bool)

  const BLANK := Snapshot([DEFAULT_LINE], 0, 0, false, false)

  predicate Sane(s: Snapshot) {
    s.lines != [] && AllMarksInside(s.lines) && s.selStart <= s.selEnd <= |Content(s.lines)|
  }

  function Caret(s: Snapshot): nat {
    if s.reversed then s.selStart else s.selEnd
  }

  /** New lines with the caret at an offset, or at their end. */
  function WithCaret(s: Snapshot, lines: Lines, offset: nat): Snapshot {
    var at := Min(offset, |Content(lines)|);
    Snapshot(lines, at, at, false, s.readOnly)
  }

  /** The line of the caret, and the column in it. */
  function CaretLine(s: Snapshot): (ix: nat)
    requires Sane(s)
    ensures ix < |s.lines| && Column(s.lines, Caret(s)) <= |s.lines[ix].text|
  {
    LocateExact(s.lines, Caret(s));
    Locate(s.lines, Caret(s))
  }

  function Selected(s: Snapshot, offset: nat): Snapshot {
    var anchor, at := if s.reversed then s.selEnd else s.selStart, Min(offset, |Content(s.lines)|);
    s.(selStart := Min(anchor, at), selEnd := Max(anchor, at),
       reversed := if at < anchor then true else if anchor < at then false else s.reversed)
  }

  function Replaced(s: Snapshot, rangeStart: nat, rangeEnd: nat, text: string): Snapshot
    requires Sane(s) && rangeStart <= rangeEnd
  {
    var start, end := Min(rangeStart, |Content(s.lines)|), Min(rangeEnd, |Content(s.lines)|);
    if text == "" && ImageBetween(s.lines, start, end) then
      var left := WithoutImagesBetween(s.lines, start, end);
      WithCaret(s, left, StartOr0(left, Locate(s.lines, start)))
    else
      LocateExact(s.lines, start);
      if s.lines[Locate(s.lines, start)].block == Image then s
      else WithCaret(s, ReplaceBetween(s.lines, start, end, text), start + |text|)
  }

  function Parted(s: Snapshot): Snapshot
    requires Sane(s)
  {
    var at, ix := Caret(s), CaretLine(s);
    var line, after := s.lines[ix], SplitLines(s.lines, ix, Column(s.lines, Caret(s)));
    WithCaret(s, after,
              if line.block == Image then LineStart(after, ix + 1)
              else if IsListBlock(line.block) && line.text == "" then at
              else at + 1)
  }

  function Broken(s: Snapshot): Snapshot
    requires Sane(s)
  {
    var at, ix := Caret(s), CaretLine(s);
    assert s.lines[ix] in s.lines;
    WithCaret(s, s.lines[ix := BreakInLine(s.lines[ix], Column(s.lines, at))], at + 1)
  }

  function WithoutLine(s: Snapshot, ix: nat): Snapshot
    requires ix < |s.lines|
  {
    var left := LineRemoved(s.lines, ix);
    WithCaret(s, left, StartOr0(left, ix))
  }

  /** Backspace at the start of a list line. */
  function ListBackspaced(s: Snapshot, ix: nat): Snapshot
    requires ix < |s.lines|
  {
    var after := ListLineBackspaced(s.lines, ix);
    WithCaret(s, after,
              if s.lines[ix].text == "" && ix > 0 then LineStart(after, ix - 1) + |after[ix - 1].text|
              else if ix == 0 || !ListBlocksSame(s.lines[ix - 1].block, s.lines[ix].block) then LineStart(after, ix)
              else LineStart(s.lines, ix) - 1)
  }

  /** The text between two offsets goes, or the images that it touches; nothing when they are the same. */
  function DeletedBetween(s: Snapshot, from: nat, to: nat): Snapshot
    requires Sane(s) && from <= to
  {
    if from == to then s else Replaced(s, from, to, "")
  }

  function Backspaced(s: Snapshot, previous: nat): Snapshot
    requires Sane(s) && previous <= Caret(s)
  {
    var ix, col := CaretLine(s), Column(s.lines, Caret(s));
    if s.lines[ix].block == Image then WithoutLine(s, ix)
    else if col == 0 && ix > 0 && s.lines[ix - 1].block == Image then WithoutLine(s, ix - 1)
    else if col == 0 && s.selStart == s.selEnd && IsListBlock(s.lines[ix].block) then ListBackspaced(s, ix)
    else DeletedBetween(s, if s.selStart == s.selEnd then previous else s.selStart, s.selEnd)
  }

  function Deleted(s: Snapshot, next: nat): Snapshot
    requires Sane(s) && Caret(s) <= next
  {
    var ix, col := CaretLine(s), Column(s.lines, Caret(s));
    if s.lines[ix].block == Image then WithoutLine(s, ix)
    else if ix + 1 < |s.lines| && s.lines[ix + 1].block == Image && col == |s.lines[ix].text| then WithoutLine(s, ix + 1)
    else DeletedBetween(s, s.selStart, if s.selStart == s.selEnd then next else s.selEnd)
  }

  function Marked(s: Snapshot, edit: MarkEdit): Snapshot
    requires Sane(s)
  {
    if s.selStart == s.selEnd then s
    else
      LocateExact(s.lines, s.selEnd);
      s.(lines := OverSelection(edit, s.lines, Locate(s.lines, s.selStart), Column(s.lines, s.selStart),
                                Locate(s.lines, s.selEnd), Column(s.lines, s.selEnd)))
  }

  function Placed(s: Snapshot, src: string): Snapshot
    requires Sane(s)
  {
    if s.readOnly || src == "" then s
    else
      var placed := InsertImage(s.lines, CaretLine(s), Column(s.lines, Caret(s)), src);
      WithCaret(s, placed.0, LineStart(placed.0, placed.1 + 1))
  }

  function Blocked(s: Snapshot, kind: BlockKind): Snapshot
    requires Sane(s)
  {
    s.(lines := SetBlocks(s.lines, Locate(s.lines, s.selStart), Locate(s.lines, s.selEnd), kind))
  }

  function CodeToggled(s: Snapshot): Snapshot
    requires Sane(s)
  {
    s.(lines := ToggleCode(s.lines, Locate(s.lines, s.selStart), Locate(s.lines, s.selEnd)))
  }

  function Locked(s: Snapshot, on: bool): Snapshot {
    if on == s.readOnly then s
    else if on then Snapshot(s.lines, 0, 0, false, true)
    else s.(readOnly := false)
  }

  function Opened(s: Snapshot, doc: Option<Node>): Snapshot {
    WithCaret(s, OrDefault(if doc.Some? then LinesFromDoc(doc.value) else []), 0)
  }

  function Step(s: Snapshot, command: Command): Snapshot
    requires Sane(s)
  {
    match command
    case MoveTo(offset) => WithCaret(s, s.lines, offset)
    case SelectTo(offset) => Selected(s, offset)
    case SelectAll => s.(selStart := 0, selEnd := |Content(s.lines)|, reversed := false)
    case SelectUnit(start, end, reversed) =>
      if start <= end <= |Content(s.lines)| then s.(selStart := start, selEnd := end, reversed := reversed) else s
    case TypeOrPaste(text) => Replaced(s, s.selStart, s.selEnd, text)
    case Backspace(previous) => if previous <= Caret(s) then Backspaced(s, previous) else s
    case Delete(next) => if Caret(s) <= next <= |Content(s.lines)| then Deleted(s, next) else s
    case Enter => Parted(s)
    case ShiftEnter => Broken(s)
    case MarkSelection(edit) => Marked(s, edit)
    case SetBlock(kind) => Blocked(s, kind)
    case ToggleCodeBlock => CodeToggled(s)
    case PlaceImage(src) => Placed(s, src)
    case SetReadOnly(on) => Locked(s, on)
    case SetDoc(doc) => Opened(s, doc)
    case ReadDoc => s
  }

  /** With nothing selected before, the selection is the range up to the offset. */
  lemma SelectedRange(s: Snapshot, offset: nat)
    requires s.selStart == s.selEnd && offset <= |Content(s.lines)|
    ensures Selected(s, offset).selStart == Min(s.selEnd, offset) && Selected(s, offset).selEnd == Max(s.selEnd, offset)
    ensures Selected(s, offset).lines == s.lines && Selected(s, offset).readOnly == s.readOnly
  {
  }

  /** A deletion depends on the lines only, not on what was selected. */
  lemma SelectionForgotten(s: Snapshot, t: Snapshot, from: nat, to: nat)
    requires Sane(s) && Sane(t) && s.lines == t.lines && s.readOnly == t.readOnly && from <= to
    ensures Replaced(s, from, to, "") == Replaced(t, from, to, "")
  {
    hide Content, LineStart, Locate, Column, AllMarksInside, WithoutImagesBetween, ReplaceBetween;
    var start, end := Min(from, |Content(s.lines)|), Min(to, |Content(s.lines)|);
    StartInRange(s.lines, start, end);
  }

  /** Off images, what goes between two offsets is exactly that text, and the caret is where it was. */
  lemma DeletedContent(s: Snapshot, from: nat, to: nat)
    requires Sane(s) && from <= to <= |Content(s.lines)| && !ImageBetween(s.lines, from, to)
    ensures var after := DeletedBetween(s, from, to);
            && Content(after.lines) == Content(s.lines)[..from] + Content(s.lines)[to..]
            && (from < to ==> after.selStart == after.selEnd == from)
  {
    hide Content, LineStart, Locate, Column, AllMarksInside, ReplaceLines, HasImage;
    LocateMonotone(s.lines, from, to);
    LocateExact(s.lines, from);
    LocateExact(s.lines, to);
    StartInRange(s.lines, from, to);
    if from < to {
      var sl, el := Locate(s.lines, from), Locate(s.lines, to);
      ReplaceLinesContent(s.lines, sl, Column(s.lines, from), el, Column(s.lines, to), "");
    }
  }

  // ---- Every step keeps the snapshot sane ----

  predicate SaneLines(lines: Lines) {
    lines != [] && AllMarksInside(lines)
  }

  lemma CaretIsSane(s: Snapshot, lines: Lines, offset: nat)
    requires SaneLines(lines)
    ensures Sane(WithCaret(s, lines, offset))
  {
    hide AllMarksInside, Content;
  }

  lemma DefaultIsSane(lines: Lines)
    requires AllMarksInside(lines)
    ensures SaneLines(OrDefault(lines))
  {
    hide MarksInside;
    assert MarksInside(DEFAULT_LINE) by { NoMarksInside(); }
  }

  lemma NoMarksInside()
    ensures MarksInside(DEFAULT_LINE)
  {
  }

  lemma ReplacedSane(s: Snapshot, rangeStart: nat, rangeEnd: nat, text: string)
    requires Sane(s) && rangeStart <= rangeEnd
    ensures Sane(Replaced(s, rangeStart, rangeEnd, text))
  {
    hide Content, LineStart, Locate, Column, AllMarksInside, NonImages, ReplaceLines, HasImage, SaneLines, WithCaret;
    var start, end := Min(rangeStart, |Content(s.lines)|), Min(rangeEnd, |Content(s.lines)|);
    var sl, el := Locate(s.lines, start), Locate(s.lines, end);
    LocateMonotone(s.lines, start, end);
    LocateExact(s.lines, start);
    LocateExact(s.lines, end);
    if text == "" && ImageBetween(s.lines, start, end) {
      NonImagesMarks(s.lines, sl, el);
      DefaultIsSane(Splice(s.lines, sl, el + 1, NonImages(s.lines[sl..el + 1])));
      var left := WithoutImagesBetween(s.lines, start, end);
      CaretIsSane(s, left, StartOr0(left, sl));
    } else if s.lines[sl].block != Image {
      ReplaceLinesMarks(s.lines, sl, Column(s.lines, start), el, Column(s.lines, end), text);
      ReplaceLinesLonger(s.lines, sl, Column(s.lines, start), el, Column(s.lines, end), text);
      SaneFrom(ReplaceBetween(s.lines, start, end, text));
      CaretIsSane(s, ReplaceBetween(s.lines, start, end, text), start + |text|);
    }
  }

  lemma SaneFrom(lines: Lines)
    requires lines != [] && AllMarksInside(lines)
    ensures SaneLines(lines)
  {
  }

  lemma SplitNotEmpty(lines: Lines, ix: nat, col: nat)
    requires ix < |lines| && col <= |lines[ix].text|
    ensures |SplitLines(lines, ix, col)| > ix
    ensures lines[ix].block == Image ==> |SplitLines(lines, ix, col)| > ix + 1
  {
    hide MarksUpTo, TailMarks;
  }

  lemma PartedSane(s: Snapshot)
    requires Sane(s)
    ensures Sane(Parted(s))
  {
    hide Content, LineStart, Locate, Column, AllMarksInside, SplitLines, SaneLines, WithCaret;
    var ix, col := CaretLine(s), Column(s.lines, Caret(s));
    SplitLinesMarks(s.lines, ix, col);
    SplitNotEmpty(s.lines, ix, col);
    var after := SplitLines(s.lines, ix, col);
    SaneFrom(after);
    CaretIsSane(s, after, Parted(s).selStart);
    forall offset: nat
      ensures Sane(WithCaret(s, after, offset))
    {
      CaretIsSane(s, after, offset);
    }
  }

  lemma BrokenSane(s: Snapshot)
    requires Sane(s)
    ensures Sane(Broken(s))
  {
    hide Content, Locate, Column, MarksInside, BreakInLine, SaneLines, WithCaret;
    var ix, col := CaretLine(s), Column(s.lines, Caret(s));
    BreakMarks(s.lines, ix, col);
    var after := s.lines[ix := BreakInLine(s.lines[ix], col)];
    SaneFrom(after);
    CaretIsSane(s, after, Caret(s) + 1);
  }

  lemma WithoutLineSane(s: Snapshot, ix: nat)
    requires Sane(s) && ix < |s.lines|
    ensures Sane(WithoutLine(s, ix))
  {
    hide Content, AllMarksInside, SaneLines, WithCaret;
    RemovalMarks(s.lines, ix);
    DefaultIsSane(s.lines[..ix] + s.lines[ix + 1..]);
    CaretIsSane(s, LineRemoved(s.lines, ix), StartOr0(LineRemoved(s.lines, ix), ix));
  }

  lemma ListLineBackspacedSane(lines: Lines, ix: nat)
    requires SaneLines(lines) && ix < |lines|
    ensures SaneLines(ListLineBackspaced(lines, ix))
  {
    hide Joined;
    if lines[ix].text == "" && ix > 0 {
      RemovalMarks(lines, ix);
    } else if ix == 0 || !ListBlocksSame(lines[ix - 1].block, lines[ix].block) {
      assert lines[ix] in lines;
    } else {
      JoinLinesMarks(lines, ix);
    }
  }

  lemma ListBackspacedSane(s: Snapshot, ix: nat)
    requires Sane(s) && ix < |s.lines|
    ensures Sane(ListBackspaced(s, ix))
  {
    hide Content, AllMarksInside, ListLineBackspaced, WithCaret;
    ListLineBackspacedSane(s.lines, ix);
    forall offset: nat
      ensures Sane(WithCaret(s, ListLineBackspaced(s.lines, ix), offset))
    {
      CaretIsSane(s, ListLineBackspaced(s.lines, ix), offset);
    }
  }

  lemma BackspacedSane(s: Snapshot, previous: nat)
    requires Sane(s) && previous <= Caret(s)
    ensures Sane(Backspaced(s, previous))
  {
    hide Content, Locate, Column, AllMarksInside, Replaced, WithoutLine, ListBackspaced;
    var ix := CaretLine(s);
    WithoutLineSane(s, ix);
    if ix > 0 {
      WithoutLineSane(s, ix - 1);
    }
    ListBackspacedSane(s, ix);
    ReplacedSane(s, if s.selStart == s.selEnd then previous else s.selStart, s.selEnd, "");
  }

  lemma DeletedSane(s: Snapshot, next: nat)
    requires Sane(s) && Caret(s) <= next
    ensures Sane(Deleted(s, next))
  {
    hide Content, Locate, Column, AllMarksInside, Replaced, WithoutLine;
    var ix := CaretLine(s);
    WithoutLineSane(s, ix);
    if ix + 1 < |s.lines| {
      WithoutLineSane(s, ix + 1);
    }
    ReplacedSane(s, s.selStart, if s.selStart == s.selEnd then next else s.selEnd, "");
  }

  /** Edits that keep every text: the selection stays inside. */
  lemma RestyledSane(s: Snapshot, lines: Lines)
    requires Sane(s) && SaneLines(lines) && Content(lines) == Content(s.lines)
    ensures Sane(s.(lines := lines))
  {
  }

  lemma MarkedSane(s: Snapshot, edit: MarkEdit)
    requires Sane(s)
    ensures Sane(Marked(s, edit))
  {
    hide Content, Locate, Column, AllMarksInside, OverSelection, EditMarks, SaneLines;
    if s.selStart != s.selEnd {
      LocateMonotone(s.lines, s.selStart, s.selEnd);
      LocateExact(s.lines, s.selEnd);
      var sl, sc := Locate(s.lines, s.selStart), Column(s.lines, s.selStart);
      var el, ec := Locate(s.lines, s.selEnd), Column(s.lines, s.selEnd);
      OverSelectionKeeps(edit, s.lines, sl, sc, el, ec);
      SaneFrom(OverSelection(edit, s.lines, sl, sc, el, ec));
      RestyledSane(s, OverSelection(edit, s.lines, sl, sc, el, ec));
    }
  }

  lemma SetBlocksSane(s: Snapshot, start: nat, end: nat, kind: BlockKind)
    requires Sane(s) && end < |s.lines|
    ensures Sane(s.(lines := SetBlocks(s.lines, start, end, kind)))
    ensures Sane(s.(lines := ToggleCode(s.lines, start, end)))
  {
    hide Content, AllMarksInside;
    SetBlocksKeeps(s.lines, start, end, kind);
    SameTextsAndMarks(SetBlocks(s.lines, start, end, kind), s.lines);
    SameTextsAndMarks(ToggleCode(s.lines, start, end), s.lines);
  }

  lemma PlacedSane(s: Snapshot, src: string)
    requires Sane(s)
    ensures Sane(Placed(s, src))
  {
    hide Content, Locate, Column, AllMarksInside, EditorLines.PlaceImage, WithTrailing, SaneLines, WithCaret;
    if !s.readOnly && src != "" {
      var ix, col := CaretLine(s), Column(s.lines, Caret(s));
      PlaceImageMarks(s.lines, ix, col, src);
      var placed := EditorLines.PlaceImage(s.lines, ix, col, src);
      TrailingMarks(placed.0, placed.1);
      SaneFrom(WithTrailing(placed.0, placed.1));
      CaretIsSane(s, WithTrailing(placed.0, placed.1), LineStart(WithTrailing(placed.0, placed.1), placed.1 + 1));
    }
  }

  lemma OpenedSane(s: Snapshot, doc: Option<Node>)
    ensures var lines := OrDefault(if doc.Some? then LinesFromDoc(doc.value) else []);
            Sane(WithCaret(s, lines, 0))
  {
    hide LinesFromDoc, Content, WithCaret;
    if doc.Some? {
      DocIsLoaded(doc.value);
    }
    var lines := if doc.Some? then LinesFromDoc(doc.value) else [];
    DefaultIsSane(lines);
    CaretIsSane(s, OrDefault(lines), 0);
  }

  lemma StepIsSane(s: Snapshot, command: Command)
    requires Sane(s)
    ensures Sane(Step(s, command))
  {
    hide Content, LineStart, Locate, Column, AllMarksInside, Replaced, Parted, Broken, Backspaced, Deleted, Marked, Placed,
         SetBlocks, ToggleCode, LinesFromDoc, WithCaret;
    match command
    case MoveTo(offset) => CaretIsSane(s, s.lines, offset);
    case TypeOrPaste(text) => ReplacedSane(s, s.selStart, s.selEnd, text);
    case Backspace(previous) => if previous <= Caret(s) { BackspacedSane(s, previous); }
    case Delete(next) => if Caret(s) <= next { DeletedSane(s, next); }
    case Enter => PartedSane(s);
    case ShiftEnter => BrokenSane(s);
    case MarkSelection(edit) => MarkedSane(s, edit);
    case SetBlock(kind) => SetBlocksSane(s, Locate(s.lines, s.selStart), Locate(s.lines, s.selEnd), kind);
    case ToggleCodeBlock => SetBlocksSane(s, Locate(s.lines, s.selStart), Locate(s.lines, s.selEnd), Paragraph);
    case PlaceImage(src) => PlacedSane(s, src);
    case SetDoc(doc) => OpenedSane(s, doc);
    case _ =>
  }

  /** The editor after a run of commands. */
  function AfterAll(commands: seq<Command>): (s: Snapshot)
    ensures Sane(s)
  {
    if commands == [] then
      BlankIsSane();
      BLANK
    else
      var before := AfterAll(commands[..|commands| - 1]);
      StepIsSane(before, commands[|commands| - 1]);
      Step(before, commands[|commands| - 1])
  }

  lemma BlankIsSane()
    ensures Sane(BLANK)
  {
  }

  // ---- Images over a run ----

  /** The command leaves every image a source and nothing else. A line break typed into an image line,
      an image whose source has white space around it, and text made an image do not. */
  predicate KeepsImages(s: Snapshot, command: Command)
    requires Sane(s)
  {
    match command
    case ShiftEnter => s.lines[CaretLine(s)].block != Image
    case PlaceImage(src) => s.readOnly || src == "" || Trim(src) == src
    case SetBlock(kind) =>
      kind == Image ==>
        forall i :: Locate(s.lines, s.selStart) <= i <= Locate(s.lines, s.selEnd) ==> DocRoundTrip.HoldsImage(s.lines[i])
    case _ => true
  }

  lemma ReplacedKeepsImages(s: Snapshot, rangeStart: nat, rangeEnd: nat, text: string)
    requires Sane(s) && rangeStart <= rangeEnd && AllPlain(s.lines)
    ensures AllPlain(Replaced(s, rangeStart, rangeEnd, text).lines)
  {
    hide Content, LineStart, Locate, AllMarksInside, AllPlain, WithoutImages, HasImage, ReplaceLines;
    var start, end := Min(rangeStart, |Content(s.lines)|), Min(rangeEnd, |Content(s.lines)|);
    LocateExact(s.lines, start);
    ReplacementPlain(s.lines, start, end, text);
  }

  lemma BackspacedKeepsImages(s: Snapshot, previous: nat)
    requires Sane(s) && previous <= Caret(s) && AllPlain(s.lines)
    ensures AllPlain(Backspaced(s, previous).lines)
  {
    hide Content, LineStart, Locate, Column, AllMarksInside, AllPlain, Replaced, LineRemoved, ListLineBackspaced, IsListBlock;
    var ix := CaretLine(s);
    RemovedPlain(s.lines, ix);
    if ix > 0 {
      RemovedPlain(s.lines, ix - 1);
    }
    if IsListBlock(s.lines[ix].block) {
      ListBackspacePlain(s.lines, ix);
    }
    ReplacedKeepsImages(s, if s.selStart == s.selEnd then previous else s.selStart, s.selEnd, "");
  }

  lemma DeletedKeepsImages(s: Snapshot, next: nat)
    requires Sane(s) && Caret(s) <= next && AllPlain(s.lines)
    ensures AllPlain(Deleted(s, next).lines)
  {
    hide Content, LineStart, Locate, Column, AllMarksInside, AllPlain, Replaced, LineRemoved;
    var ix := CaretLine(s);
    RemovedPlain(s.lines, ix);
    if ix + 1 < |s.lines| {
      RemovedPlain(s.lines, ix + 1);
    }
    ReplacedKeepsImages(s, s.selStart, if s.selStart == s.selEnd then next else s.selEnd, "");
  }

  lemma RestyledKeepsImages(s: Snapshot, edit: MarkEdit, kind: BlockKind)
    requires Sane(s) && AllPlain(s.lines)
    ensures AllPlain(Step(s, MarkSelection(edit)).lines) && AllPlain(Step(s, ToggleCodeBlock).lines)
    ensures AllPlain(Step(s, SetBlock(kind)).lines) <==> KeepsImages(s, SetBlock(kind))
  {
    hide Content, LineStart, Locate, Column, AllMarksInside, AllPlain, OverSelection, SetBlocks, ToggleCode;
    LocateExact(s.lines, s.selEnd);
    var sl, sc := Locate(s.lines, s.selStart), Column(s.lines, s.selStart);
    var el, ec := Locate(s.lines, s.selEnd), Column(s.lines, s.selEnd);
    MarkingPlain(edit, s.lines, sl, sc, el, ec);
    ToggleCodePlain(s.lines, sl, el);
    if kind != Image {
      SetBlocksPlain(s.lines, sl, el, kind);
    } else {
      MadeImagesExactly(s.lines, sl, el);
    }
  }

  lemma MadeImagesExactly(lines: Lines, start: nat, end: nat)
    requires end < |lines| && AllPlain(lines)
    ensures AllPlain(SetBlocks(lines, start, end, Image)) <==>
            forall i :: start <= i <= end ==> DocRoundTrip.HoldsImage(lines[i])
  {
    hide DocRoundTrip.HoldsImage;
    var after := SetBlocks(lines, start, end, Image);
    forall i | 0 <= i < |lines|
      ensures after[i] in after
      ensures DocRoundTrip.PlainImage(after[i]) <==> !(start <= i <= end) || DocRoundTrip.HoldsImage(lines[i])
    {
      assert lines[i] in lines;
      HeldAlike(after[i], lines[i]);
    }
  }

  lemma HeldAlike(a: EditorLine, b: EditorLine)
    requires a.text == b.text && a.imageSrc == b.imageSrc
    ensures DocRoundTrip.HoldsImage(a) <==> DocRoundTrip.HoldsImage(b)
  {
  }

  lemma InsertedKeepsImages(s: Snapshot, src: string)
    requires Sane(s) && AllPlain(s.lines)
    ensures AllPlain(Parted(s).lines)
    ensures AllPlain(Broken(s).lines) <==> KeepsImages(s, ShiftEnter)
    ensures AllPlain(Placed(s, src).lines) <==> KeepsImages(s, PlaceImage(src))
  {
    hide Content, LineStart, Locate, Column, MarksInside, AllPlain, SplitLines, BreakInLine, InsertImage, Trim;
    var ix, col := CaretLine(s), Column(s.lines, Caret(s));
    SplitPlain(s.lines, ix, col);
    BreakPlainExactly(s.lines, ix, col);
    if src != "" {
      InsertPlainExactly(s.lines, ix, col, src);
    }
  }

  /** A step keeps images loadable exactly when the command is none of the named exceptions. */
  lemma StepKeepsImagesExactly(s: Snapshot, command: Command)
    requires Sane(s) && AllPlain(s.lines)
    ensures AllPlain(Step(s, command).lines) <==> KeepsImages(s, command)
  {
    hide Content, LineStart, Locate, Column, AllMarksInside, AllPlain, Replaced, Parted, Broken, Backspaced, Deleted, Marked,
         Placed, SetBlocks, ToggleCode, LinesFromDoc, Trim;
    match command
    case TypeOrPaste(text) => ReplacedKeepsImages(s, s.selStart, s.selEnd, text);
    case Backspace(previous) => if previous <= Caret(s) { BackspacedKeepsImages(s, previous); }
    case Delete(next) => if Caret(s) <= next { DeletedKeepsImages(s, next); }
    case Enter => InsertedKeepsImages(s, "");
    case ShiftEnter => InsertedKeepsImages(s, "");
    case PlaceImage(src) => InsertedKeepsImages(s, src);
    case MarkSelection(edit) => RestyledKeepsImages(s, edit, Paragraph);
    case SetBlock(kind) => RestyledKeepsImages(s, DropLink, kind);
    case ToggleCodeBlock => RestyledKeepsImages(s, DropLink, Paragraph);
    case SetDoc(doc) => OpenedPlain(doc);
    case _ =>
  }

  /** Every command of the run kept the images loadable when it came. */
  predicate AllKept(commands: seq<Command>) {
    commands == [] ||
    (AllKept(commands[..|commands| - 1]) && KeepsImages(AfterAll(commands[..|commands| - 1]), commands[|commands| - 1]))
  }

  lemma {:induction false} KeptRunIsPlain(commands: seq<Command>)
    requires AllKept(commands)
    ensures AllPlain(AfterAll(commands).lines)
  {
    hide Step, KeepsImages, AllPlain;
    if commands == [] {
      BlankIsPlain();
    } else {
      var before := commands[..|commands| - 1];
      KeptRunIsPlain(before);
      StepKeepsImagesExactly(AfterAll(before), commands[|commands| - 1]);
    }
  }

  lemma BlankIsPlain()
    ensures AllPlain(BLANK.lines)
  {
  }

  /** The document of a run loads back with the same blocks, texts and images exactly when its images
      are still plain. */
  lemma RunReloadsExactly(commands: seq<Command>)
    ensures var lines := AfterAll(commands).lines;
            && (DocRoundTrip.SameShape(LinesFromDoc(PrintDoc(lines)), lines) <==> AllPlain(lines))
            && (AllKept(commands) ==> DocRoundTrip.SameShape(LinesFromDoc(PrintDoc(lines)), lines))
  {
    hide PrintDoc, LinesFromDoc, AllKept, DocRoundTrip.SameShape, DocRoundTrip.PlainImage, AfterAll;
    if AllKept(commands) {
      KeptRunIsPlain(commands);
    }
    DocRoundTrip.ShapeSurvivesExactly(AfterAll(commands).lines);
  }

  // ---- Two runs that lose something ----

  lemma AfterOneMore(commands: seq<Command>, command: Command)
    ensures AfterAll(commands + [command]) == Step(AfterAll(commands), command)
  {
    hide Step;
    assert (commands + [command])[..|commands|] == commands;
  }

  function ImageFirst(src: string): Snapshot {
    Snapshot([ImageLine(src), DEFAULT_LINE], 1, 1, false, false)
  }

  lemma PlacedFirst(src: string)
    requires src != ""
    ensures AfterAll([PlaceImage(src)]) == ImageFirst(src)
  {
    hide Trim;
    AfterOneMore([], PlaceImage(src));
    assert [] + [PlaceImage(src)] == [PlaceImage(src)];
    var lines := [ImageLine(src), DEFAULT_LINE];
    assert InsertImage([DEFAULT_LINE], 0, 0, src).0 == lines;
    assert Content(lines) == "\n" by { assert lines[1..] == [DEFAULT_LINE]; }
  }

  /** An image, and a line break typed while the caret is on it: after loading the break is gone. */
  lemma BreakOnImageIsLost(src: string)
    requires src != "" && Trim(src) == src
    ensures var lines := AfterAll([PlaceImage(src), MoveTo(0), ShiftEnter]).lines;
            && lines == [ImageLine(src).(text := "\n"), DEFAULT_LINE]
            && !DocRoundTrip.SameShape(LinesFromDoc(PrintDoc(lines)), lines)
  {
    hide PrintDoc, LinesFromDoc, DocRoundTrip.SameShape, Trim;
    var placed, moved := [PlaceImage(src)], [PlaceImage(src), MoveTo(0)];
    PlacedFirst(src);
    AfterOneMore(placed, MoveTo(0));
    AfterOneMore(moved, ShiftEnter);
    assert placed + [MoveTo(0)] == moved && moved + [ShiftEnter] == [PlaceImage(src), MoveTo(0), ShiftEnter];
    var lines := AfterAll(moved + [ShiftEnter]).lines;
    assert AfterAll(moved).lines == [ImageLine(src), DEFAULT_LINE] && AfterAll(moved).selEnd == 0;
    assert "" + "\n" + "" == "\n";
    assert lines[0] in lines;
    RunReloadsExactly(moved + [ShiftEnter]);
  }

  /** An image with a space before its source: after loading the source is another one. */
  lemma UntrimmedSourceIsLost()
    ensures var lines := AfterAll([PlaceImage(" x")]).lines;
            && lines == [ImageLine(" x"), DEFAULT_LINE]
            && !DocRoundTrip.SameShape(LinesFromDoc(PrintDoc(lines)), lines)
  {
    hide PrintDoc, LinesFromDoc, DocRoundTrip.SameShape;
    PlacedFirst(" x");
    var lines := AfterAll([PlaceImage(" x")]).lines;
    assert lines[0] in lines;
    assert Trim(" x") != " x" by { TrimmedX(); }
    RunReloadsExactly([PlaceImage(" x")]);
  }

  lemma TrimmedX()
    ensures |Trim(" x")| <= 1
  {
    assert " x"[1..] == "x";
    DocRoundTrip.TrimEndShape(TrimStart(" x"));
  }
}
