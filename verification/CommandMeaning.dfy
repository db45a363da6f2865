/** What each command does, said in positions: the caret is at column col of line ix when its offset is
    the start of that line plus col. Lines are given as what is left of the old list. */
module CommandMeaning {
  import opened Basics
  import opened TipTap
  import opened InlineRoundTrip
  import opened EditorLines
  import opened EditorSteps
  import EditStyles
  import StyleRuns

  // ---- Positions ----

  /** Offset `at` is column col of line ix. */
  predicate IsAt(lines: Lines, at: nat, ix: nat, col: nat) {
    ix < |lines| && col <= |lines[ix].text| && at == LineStart(lines, ix) + col
  }

  lemma AtIs(lines: Lines, at: nat, ix: nat, col: nat)
    requires IsAt(lines, at, ix, col)
    ensures at <= |Content(lines)| && Locate(lines, at) == ix && Column(lines, at) == col
  {
    hide Content, Locate, Column, LineStart;
    PositionRoundTrip(lines, ix, col);
  }

  /** The empty paragraph that a list without lines becomes. */
  const EMPTY := EditorLine(Paragraph, "", [], None, None)

  /** Without line k; never without any line. */
  function Without(lines: Lines, k: nat): Lines
    requires k < |lines|
  {
    if |lines| == 1 then [EMPTY] else lines[..k] + lines[k + 1..]
  }

  /** The start of the line that takes the place of line k, or the start of all when there is none. */
  function PlaceOf(lines: Lines, k: nat): nat
    requires k < |lines|
  {
    if k + 1 < |lines| then LineStart(lines, k) else 0
  }

  lemma LineGoes(s: Snapshot, k: nat)
    requires Sane(s) && k < |s.lines|
    ensures WithoutLine(s, k) == Snapshot(Without(s.lines, k), PlaceOf(s.lines, k), PlaceOf(s.lines, k), false, s.readOnly)
  {
    hide Content, AllMarksInside;
    var left := Without(s.lines, k);
    assert LineRemoved(s.lines, k) == left;
    assert |s.lines| == 1 ==> LineStart(left, 0) == 0;
    if k + 1 < |s.lines| {
      assert left[..k] == s.lines[..k];
      LineStartLocal(left, s.lines, k);
      LineInContent(left, k);
    }
  }

  /** The text between two offsets lies on lines that are no images. */
  predicate NoImageTouched(lines: Lines, from: nat, to: nat) {
    forall k :: 0 <= k < |lines| && LineStart(lines, k) <= to && from <= LineStart(lines, k) + |lines[k].text|
                ==> lines[k].block != Image
  }

  lemma NoImageIs(lines: Lines, from: nat, to: nat)
    requires lines != [] && from <= to <= |Content(lines)|
    ensures NoImageTouched(lines, from, to) <==> !ImageBetween(lines, from, to)
  {
    hide Content, LineStart, Locate;
    LocateMonotone(lines, from, to);
    LocateExact(lines, from);
    LocateExact(lines, to);
    var sl, el := Locate(lines, from), Locate(lines, to);
    var range := lines[sl..el + 1];
    forall k | 0 <= k < |lines|
      ensures LineStart(lines, k) <= to && from <= LineStart(lines, k) + |lines[k].text| <==> sl <= k <= el
    {
      if k < sl {
        LineStartGrows(lines, k, sl);
      }
      if sl < k {
        LineStartGrows(lines, sl, k);
      }
      if el < k {
        LineStartGrows(lines, el, k);
      }
      if k < el {
        LineStartGrows(lines, k, el);
      }
    }
    if ImageBetween(lines, from, to) {
      var l :| l in range && l.block == Image;
      var i :| 0 <= i < |range| && range[i] == l;
      assert lines[sl + i].block == Image;
    } else {
      forall k | sl <= k <= el
        ensures lines[k].block != Image
      {
        assert range[k - sl] in range;
      }
    }
  }

  /** The content without the text between two offsets, and the caret where it was. */
  ghost predicate Cut(s: Snapshot, after: Snapshot, from: nat, to: nat)
    requires from <= to <= |Content(s.lines)|
  {
    && Content(after.lines) == Content(s.lines)[..from] + Content(s.lines)[to..]
    && (from < to ==> after.selStart == after.selEnd == from)
    && (from == to ==> after == s)
  }

  lemma CutIs(s: Snapshot, from: nat, to: nat)
    requires Sane(s) && from <= to <= |Content(s.lines)| && NoImageTouched(s.lines, from, to)
    ensures Cut(s, DeletedBetween(s, from, to), from, to)
  {
    hide Content, LineStart, AllMarksInside, Replaced, ImageBetween, NoImageTouched;
    NoImageIs(s.lines, from, to);
    DeletedContent(s, from, to);
  }

  /** The lines without the images that a range touches; the first of those lines is found again by its
      number. */
  function ImagesTaken(s: Snapshot, from: nat, to: nat): Snapshot
    requires Sane(s) && from <= to
  {
    LocateMonotone(s.lines, from, to);
    var sl, el := Locate(s.lines, from), Locate(s.lines, to);
    var kept := s.lines[..sl] + NonImages(s.lines[sl..el + 1]) + s.lines[el + 1..];
    var left := if kept == [] then [EMPTY] else kept;
    var at := if sl < |left| then LineStart(left, sl) else 0;
    Snapshot(left, at, at, false, s.readOnly)
  }

  /** Deleting over images takes the images that the range touches, and nothing else. */
  lemma ImagesGo(s: Snapshot, from: nat, to: nat)
    requires Sane(s) && from <= to <= |Content(s.lines)|
    ensures !NoImageTouched(s.lines, from, to) ==> Replaced(s, from, to, "") == ImagesTaken(s, from, to)
  {
    hide Content, LineStart, Locate, Column, AllMarksInside, NoImageTouched, NonImages, ImageBetween;
    NoImageIs(s.lines, from, to);
    LocateMonotone(s.lines, from, to);
    var left := WithoutImagesBetween(s.lines, from, to);
    if Locate(s.lines, from) < |left| {
      LineInContent(left, Locate(s.lines, from));
    }
  }

  /** What the filter leaves, line by line and in order. */
  lemma {:induction false} NonImagesExactly(a: Lines, line: EditorLine, b: Lines)
    ensures NonImages(a + [line] + b) == NonImages(a) + (if line.block == Image then [] else [line]) + NonImages(b)
    ensures NonImages([]) == []
  {
    var own: Lines := if line.block == Image then [] else [line];
    if a == [] {
      assert [] + [line] + b == [line] + b;
      TailOfAppend([line], b);
      assert [line][1..] + b == b;
      assert [] + own + NonImages(b) == own + NonImages(b);
    } else {
      var first: Lines := if a[0].block == Image then [] else [a[0]];
      assert a + [line] + b == a + ([line] + b);
      assert a[1..] + [line] + b == a[1..] + ([line] + b);
      TailOfAppend(a, [line] + b);
      NonImagesExactly(a[1..], line, b);
      Associative(first, NonImages(a[1..]), own);
      Associative(first, NonImages(a[1..]) + own, NonImages(b));
    }
  }

  // ---- Delete ----

  /** Delete on an image takes that image, and at the end of a line above an image the image; every other
      line stays, in order. */
  lemma DeleteTakesImage(s: Snapshot, next: nat, ix: nat, col: nat)
    requires Sane(s) && IsAt(s.lines, Caret(s), ix, col) && Caret(s) <= next <= |Content(s.lines)|
    ensures var after, lines := Step(s, Delete(next)), s.lines;
            && (lines[ix].block == Image ==>
                  after == Snapshot(Without(lines, ix), PlaceOf(lines, ix), PlaceOf(lines, ix), false, s.readOnly))
            && (lines[ix].block != Image && col == |lines[ix].text| && ix + 1 < |lines| && lines[ix + 1].block == Image ==>
                  && after.lines == lines[..ix + 1] + lines[ix + 2..]
                  && after.selStart == after.selEnd == PlaceOf(lines, ix + 1))
  {
    hide Content, LineStart, Locate, Column, AllMarksInside, WithoutLine;
    AtIs(s.lines, Caret(s), ix, col);
    LineGoes(s, ix);
    if ix + 1 < |s.lines| {
      LineGoes(s, ix + 1);
    }
  }

  /** Everywhere else Delete takes exactly the selected text, or the text up to the boundary. */
  lemma DeleteTakesText(s: Snapshot, next: nat, ix: nat, col: nat)
    requires Sane(s) && IsAt(s.lines, Caret(s), ix, col) && Caret(s) <= next <= |Content(s.lines)|
    requires s.lines[ix].block != Image
    requires !(col == |s.lines[ix].text| && ix + 1 < |s.lines| && s.lines[ix + 1].block == Image)
    ensures var to := if s.selStart == s.selEnd then next else s.selEnd;
            && (NoImageTouched(s.lines, s.selStart, to) ==> Cut(s, Step(s, Delete(next)), s.selStart, to))
            && (s.selStart < to && !NoImageTouched(s.lines, s.selStart, to) ==>
                  Step(s, Delete(next)) == ImagesTaken(s, s.selStart, to))
  {
    hide Content, LineStart, Locate, Column, AllMarksInside, Cut, NoImageTouched, Replaced, ImagesTaken;
    AtIs(s.lines, Caret(s), ix, col);
    var to := if s.selStart == s.selEnd then next else s.selEnd;
    ImagesGo(s, s.selStart, to);
    if NoImageTouched(s.lines, s.selStart, to) {
      CutIs(s, s.selStart, to);
    }
  }

  // ---- Backspace ----

  /** Backspace on an image takes that image, and at the start of a line below an image the image. */
  lemma BackspaceTakesImage(s: Snapshot, previous: nat, ix: nat, col: nat)
    requires Sane(s) && IsAt(s.lines, Caret(s), ix, col) && previous <= Caret(s)
    ensures var after, lines := Step(s, Backspace(previous)), s.lines;
            && (lines[ix].block == Image ==>
                  after == Snapshot(Without(lines, ix), PlaceOf(lines, ix), PlaceOf(lines, ix), false, s.readOnly))
            && (lines[ix].block != Image && col == 0 && ix > 0 && lines[ix - 1].block == Image ==>
                  && after.lines == lines[..ix - 1] + lines[ix..]
                  && after.selStart == after.selEnd == LineStart(lines, ix - 1))
  {
    hide Content, LineStart, Locate, Column, AllMarksInside, WithoutLine;
    AtIs(s.lines, Caret(s), ix, col);
    LineGoes(s, ix);
    if ix > 0 {
      LineGoes(s, ix - 1);
    }
  }

  /** The start of a list item, with nothing selected. */
  predicate AtItemStart(s: Snapshot, ix: nat, col: nat)
    requires ix < |s.lines|
  {
    col == 0 && s.selStart == s.selEnd && s.lines[ix].block in {BulletItem, OrderedItem, TaskItem(true), TaskItem(false)}
  }

  lemma ListBlocks(block: BlockKind)
    ensures IsListBlock(block) <==> block in {BulletItem, OrderedItem, TaskItem(true), TaskItem(false)}
  {
  }

  /** Off images and starts of items Backspace takes exactly the selected text, or the text from the
      boundary on. */
  lemma BackspaceTakesText(s: Snapshot, previous: nat, ix: nat, col: nat)
    requires Sane(s) && IsAt(s.lines, Caret(s), ix, col) && previous <= Caret(s)
    requires s.lines[ix].block != Image && !(col == 0 && ix > 0 && s.lines[ix - 1].block == Image)
    requires !AtItemStart(s, ix, col)
    ensures var from := if s.selStart == s.selEnd then previous else s.selStart;
            && (NoImageTouched(s.lines, from, s.selEnd) ==> Cut(s, Step(s, Backspace(previous)), from, s.selEnd))
            && (from < s.selEnd && !NoImageTouched(s.lines, from, s.selEnd) ==>
                  Step(s, Backspace(previous)) == ImagesTaken(s, from, s.selEnd))
  {
    hide Content, LineStart, Locate, Column, AllMarksInside, Cut, NoImageTouched, Replaced, ImagesTaken;
    AtIs(s.lines, Caret(s), ix, col);
    ListBlocks(s.lines[ix].block);
    var from := if s.selStart == s.selEnd then previous else s.selStart;
    ImagesGo(s, from, s.selEnd);
    if NoImageTouched(s.lines, from, s.selEnd) {
      CutIs(s, from, s.selEnd);
    }
  }

  /** Both items are of the same kind of list. */
  predicate SameList(a: BlockKind, b: BlockKind) {
    a == b || (a.TaskItem? && b.TaskItem?)
  }

  /** One line made of two: the texts in order, each character with its styles, in the first one's block. */
  ghost predicate IsJoint(line: EditorLine, a: EditorLine, b: EditorLine) {
    && line.block == a.block && line.orderedStart == a.orderedStart && line.text == a.text + b.text
    && (forall p: nat :: p < |a.text| ==> StylesAt(line.marks, p) == StylesAt(a.marks, p))
    && (forall p: nat :: p < |b.text| ==> StylesAt(line.marks, |a.text| + p) == StylesAt(b.marks, p))
  }

  /** At the start of an item: an empty one goes and the caret ends the line above; one that no item of
      its list precedes becomes a paragraph; any other joins the item above. */
  lemma BackspaceAtItem(s: Snapshot, previous: nat, ix: nat)
    requires Sane(s) && IsAt(s.lines, Caret(s), ix, 0) && previous <= Caret(s) && AtItemStart(s, ix, 0)
    requires ix > 0 ==> s.lines[ix - 1].block != Image
    ensures var after, lines := Step(s, Backspace(previous)), s.lines;
            if ix > 0 && lines[ix].text == "" then
              && after.lines == lines[..ix] + lines[ix + 1..]
              && after.selStart == after.selEnd == LineStart(lines, ix) - 1
            else if ix == 0 || !SameList(lines[ix - 1].block, lines[ix].block) then
              && after.lines == lines[ix := lines[ix].(block := Paragraph, orderedStart := None)]
              && after.selStart == after.selEnd == LineStart(lines, ix)
            else
              && |after.lines| == |lines| - 1 && after.lines[..ix - 1] == lines[..ix - 1] && after.lines[ix..] == lines[ix + 1..]
              && IsJoint(after.lines[ix - 1], lines[ix - 1], lines[ix])
              && after.selStart == after.selEnd == LineStart(lines, ix) - 1
  {
    hide Content, LineStart, Locate, Column, AllMarksInside, ListLineBackspaced, IsJoint;
    AtIs(s.lines, Caret(s), ix, 0);
    ListBlocks(s.lines[ix].block);
    assert Step(s, Backspace(previous)) == ListBackspaced(s, ix);
    ItemBackspaced(s, ix);
  }

  lemma ItemBackspaced(s: Snapshot, ix: nat)
    requires Sane(s) && ix < |s.lines| && IsListBlock(s.lines[ix].block)
    ensures var after, lines := ListBackspaced(s, ix), s.lines;
            if ix > 0 && lines[ix].text == "" then
              && after.lines == lines[..ix] + lines[ix + 1..]
              && after.selStart == after.selEnd == LineStart(lines, ix) - 1
            else if ix == 0 || !SameList(lines[ix - 1].block, lines[ix].block) then
              && after.lines == lines[ix := lines[ix].(block := Paragraph, orderedStart := None)]
              && after.selStart == after.selEnd == LineStart(lines, ix)
            else
              && |after.lines| == |lines| - 1 && after.lines[..ix - 1] == lines[..ix - 1] && after.lines[ix..] == lines[ix + 1..]
              && IsJoint(after.lines[ix - 1], lines[ix - 1], lines[ix])
              && after.selStart == after.selEnd == LineStart(lines, ix) - 1
  {
    hide Content, LineStart, AllMarksInside, IsJoint, Joined;
    var lines, after := s.lines, ListLineBackspaced(s.lines, ix);
    if ix > 0 && lines[ix].text == "" {
      assert after[..ix] == lines[..ix];
      LineStartLocal(after, lines, ix - 1);
      LineStartStep(lines, ix);
      LineInContent(after, ix - 1);
    } else if ix == 0 || !ListBlocksSame(lines[ix - 1].block, lines[ix].block) {
      assert after[..ix] == lines[..ix];
      LineStartLocal(after, lines, ix);
      LineInContent(after, ix);
    } else {
      JoinLinesContent(lines, ix);
      JointIs(lines, ix);
    }
  }

  lemma JointIs(lines: Lines, ix: nat)
    requires 0 < ix < |lines| && AllMarksInside(lines)
    ensures IsJoint(Joined(lines[ix - 1], lines[ix]), lines[ix - 1], lines[ix])
  {
    hide StylesAt, Appended;
    var a, b := lines[ix - 1], lines[ix];
    assert a in lines && b in lines;
    var moved := Appended(b.marks, |a.text|);
    forall p: nat
      ensures p < |a.text| ==> StylesAt(a.marks + moved, p) == StylesAt(a.marks, p)
      ensures p < |b.text| ==> StylesAt(a.marks + moved, |a.text| + p) == StylesAt(b.marks, p)
    {
      if p < |a.text| {
        StylesAtAppend(a.marks, moved, p);
        MovedBeyond(b.marks, |a.text|, p);
        NothingAdded(StylesAt(a.marks, p));
      }
      if p < |b.text| {
        StylesAtAppend(a.marks, moved, |a.text| + p);
        StylesAtOutside(a.marks, |a.text| + p);
        MovedStyles(b.marks, |a.text|, p);
        assert [] + StylesAt(b.marks, p) == StylesAt(b.marks, p);
      }
    }
  }

  lemma MovedBeyond(marks: seq<EditorMark>, delta: nat, p: nat)
    requires p < delta
    ensures StylesAt(Appended(marks, delta), p) == []
  {
    var moved := Appended(marks, delta);
    forall m | m in moved
      ensures !(m.start <= p < m.end)
    {
      var i :| 0 <= i < |moved| && moved[i] == m;
    }
    StylesAtOutside(moved, p);
  }

  lemma {:induction false} MovedStyles(marks: seq<EditorMark>, delta: nat, p: nat)
    ensures StylesAt(Appended(marks, delta), delta + p) == StylesAt(marks, p)
  {
    hide StylesAt;
    EditStyles.StylesUnfold(marks, p);
    EditStyles.StylesUnfold(Appended(marks, delta), delta + p);
    if marks != [] {
      MovedStyles(marks[1..], delta, p);
      assert Appended(marks, delta)[1..] == Appended(marks[1..], delta);
    }
  }

  // ---- Enter and line breaks ----

  /** The two lines that a line parts into: the text cut at the column, the block kept but for the tick
      of a task, the later styles moved along, the earlier ones kept unless their mark is cut. */
  ghost predicate IsParted(line: EditorLine, col: nat, a: EditorLine, b: EditorLine)
    requires col <= |line.text|
  {
    && a == line.(text := line.text[..col], marks := a.marks)
    && b == EditorLine(if line.block.TaskItem? then TaskItem(false) else line.block, line.text[col..], b.marks, None, None)
    && (forall p: nat :: StylesAt(b.marks, p) == StylesAt(line.marks, col + p))
    && (forall p: nat :: p < col && EditStyles.NoneCut(line.marks, col, p) ==> StylesAt(a.marks, p) == StylesAt(line.marks, p))
    && (forall m :: m in a.marks <==> m in line.marks && m.end <= col)
  }

  lemma PartedIs(line: EditorLine, col: nat)
    requires col <= |line.text|
    ensures IsParted(line, col, SplitLine(line, col)[0], SplitLine(line, col)[1])
  {
    hide StylesAt, MarksUpTo, TailMarks, EditStyles.NoneCut;
    var tail := TailMarks(line.marks, col);
    MarksUpToInside(line.marks, col);
    forall p: nat
      ensures StylesAt(tail, p) == StylesAt(line.marks, col + p)
    {
      EditStyles.TailStyles(line.marks, col, col + p);
      MovedStyles(tail, col, p);
    }
    forall p: nat | p < col && EditStyles.NoneCut(line.marks, col, p)
      ensures StylesAt(MarksUpTo(line.marks, col), p) == StylesAt(line.marks, p)
    {
      EditStyles.HeadStyles(line.marks, col, p);
    }
  }

  /** Enter in a line of text parts it, and in code adds a newline; either way the caret is one further. */
  lemma EnterParts(s: Snapshot, ix: nat, col: nat)
    requires Sane(s) && IsAt(s.lines, Caret(s), ix, col) && StyleRuns.Parts(s.lines[ix])
    ensures var after, lines, line := Step(s, Enter), s.lines, s.lines[ix];
            && after.selStart == after.selEnd == Caret(s) + 1 && after.readOnly == s.readOnly
            && if line.block == CodeBlock then
                 && after.lines == lines[ix := after.lines[ix]]
                 && after.lines[ix] == line.(text := line.text[..col] + "\n" + line.text[col..], marks := after.lines[ix].marks)
               else
                 && |after.lines| == |lines| + 1
                 && after.lines[..ix] == lines[..ix] && after.lines[ix + 2..] == lines[ix + 1..]
                 && IsParted(line, col, after.lines[ix], after.lines[ix + 1])
  {
    hide Content, LineStart, Locate, Column, AllMarksInside, IsParted, MarksUpTo;
    AtIs(s.lines, Caret(s), ix, col);
    StyleRuns.PartedAt(s);
    if s.lines[ix].block == CodeBlock {
    } else {
      StyleRuns.TwoLines(s.lines, ix, col);
      PartedIs(s.lines[ix], col);
    }
  }

  /** Enter on an image adds an empty paragraph below it; in an empty item it ends the list there. */
  lemma EnterElsewhere(s: Snapshot, ix: nat, col: nat)
    requires Sane(s) && IsAt(s.lines, Caret(s), ix, col) && !StyleRuns.Parts(s.lines[ix])
    ensures var after, lines := Step(s, Enter), s.lines;
            if lines[ix].block == Image then
              && after.lines == lines[..ix + 1] + [EMPTY] + lines[ix + 1..]
              && after.selStart == after.selEnd == LineStart(after.lines, ix + 1)
            else
              && after.lines == lines[ix := lines[ix].(block := Paragraph, orderedStart := None)]
              && after.selStart == after.selEnd == Caret(s)
  {
    hide Content, LineStart, Locate, Column, AllMarksInside;
    AtIs(s.lines, Caret(s), ix, col);
    var after := SplitLines(s.lines, ix, col);
    if s.lines[ix].block == Image {
      LineInContent(after, ix + 1);
    } else {
      assert after[..ix] == s.lines[..ix];
      LineStartLocal(after, s.lines, ix);
      LineInContent(after, ix);
    }
  }

  /** A line break goes into the line at the caret, in any block, and nothing else changes. */
  lemma BreakGoesIn(s: Snapshot, ix: nat, col: nat)
    requires Sane(s) && IsAt(s.lines, Caret(s), ix, col)
    ensures var after, lines, line := Step(s, ShiftEnter), s.lines, s.lines[ix];
            && after.lines == lines[ix := after.lines[ix]] && after.readOnly == s.readOnly
            && after.lines[ix] == line.(text := line.text[..col] + "\n" + line.text[col..], marks := after.lines[ix].marks)
            && after.selStart == after.selEnd == Caret(s) + 1
            && (EditStyles.SurvivorsKeep(line.marks, line.marks, after.lines[ix].marks, col, col, 1) <==>
                forall m :: m in line.marks ==> !EditStyles.Torn(m, col, col))
  {
    hide Content, LineStart, Locate, Column, ShiftMarks, EditStyles.SurvivorsKeep, EditStyles.Torn;
    AtIs(s.lines, Caret(s), ix, col);
    var line := s.lines[ix];
    assert line in s.lines;
    EditStyles.WithinLineExactly(line.marks, col, col, 1);
    BreakContent(s.lines, ix, col, BreakInLine(line, col));
    assert Splice(s.lines, ix, ix + 1, [BreakInLine(line, col)]) == s.lines[ix := BreakInLine(line, col)];
  }

  // ---- Typing and pasting ----

  /** The selected text is replaced, in the line where the selection starts; the lines it reaches into are
      merged with that line. On an image nothing is typed. */
  lemma TypedReplaces(s: Snapshot, text: string, sl: nat, sc: nat, el: nat, ec: nat)
    requires Sane(s) && IsAt(s.lines, s.selStart, sl, sc) && IsAt(s.lines, s.selEnd, el, ec) && text != ""
    ensures sl <= el
    ensures var after, lines := Step(s, TypeOrPaste(text)), s.lines;
            if lines[sl].block == Image then after == s
            else
              && |after.lines| == |lines| - (el - sl)
              && after.lines[..sl] == lines[..sl] && after.lines[sl + 1..] == lines[el + 1..]
              && after.lines[sl]
                 == lines[sl].(text := lines[sl].text[..sc] + text + lines[el].text[ec..], marks := after.lines[sl].marks)
              && after.selStart == after.selEnd == s.selStart + |text|
              && Content(after.lines) == Content(s.lines)[..s.selStart] + text + Content(s.lines)[s.selEnd..]
  {
    hide Content, LineStart, Locate, Column, AllMarksInside, MarksUpTo, ShiftMarks;
    AtIs(s.lines, s.selStart, sl, sc);
    AtIs(s.lines, s.selEnd, el, ec);
    LocateMonotone(s.lines, s.selStart, s.selEnd);
    if s.lines[sl].block != Image {
      ReplaceLinesContent(s.lines, sl, sc, el, ec, text);
    }
  }

  /** Pasting nothing takes the selected text, or the images that the selection touches. */
  lemma NothingPasted(s: Snapshot)
    requires Sane(s)
    ensures NoImageTouched(s.lines, s.selStart, s.selEnd) ==>
              && Content(Step(s, TypeOrPaste("")).lines) == Content(s.lines)[..s.selStart] + Content(s.lines)[s.selEnd..]
    ensures !NoImageTouched(s.lines, s.selStart, s.selEnd) ==>
              Step(s, TypeOrPaste("")) == ImagesTaken(s, s.selStart, s.selEnd)
  {
    hide Content, LineStart, Locate, AllMarksInside, NoImageTouched, ImagesTaken, Column, ReplaceLines, ImageBetween;
    ImagesGo(s, s.selStart, s.selEnd);
    NoImageIs(s.lines, s.selStart, s.selEnd);
    if NoImageTouched(s.lines, s.selStart, s.selEnd) {
      var sl, el := Locate(s.lines, s.selStart), Locate(s.lines, s.selEnd);
      StartInRange(s.lines, s.selStart, s.selEnd);
      LocateExact(s.lines, s.selStart);
      LocateExact(s.lines, s.selEnd);
      LocateMonotone(s.lines, s.selStart, s.selEnd);
      ReplaceLinesContent(s.lines, sl, Column(s.lines, s.selStart), el, Column(s.lines, s.selEnd), "");
    }
  }

  // ---- Styling a selection ----

  /** Columns of line i that are selected: from, and up to. */
  function SelectedFrom(s: Snapshot, i: nat): nat
    requires i < |s.lines|
  {
    Max(s.selStart - LineStart(s.lines, i), 0)
  }

  function SelectedTo(s: Snapshot, i: nat): nat
    requires i < |s.lines|
  {
    Max(Min(s.selEnd - LineStart(s.lines, i), |s.lines[i].text|), 0)
  }

  lemma SelectedColumns(s: Snapshot, i: nat)
    requires Sane(s) && s.selStart < s.selEnd && i < |s.lines|
    ensures var sl, sc := Locate(s.lines, s.selStart), Column(s.lines, s.selStart);
            var el, ec := Locate(s.lines, s.selEnd), Column(s.lines, s.selEnd);
            if sl <= i <= el then
              && SelStart(i, sl, sc) == SelectedFrom(s, i) && SelEnd(s.lines, i, el, ec) == SelectedTo(s, i)
              && (SelectedFrom(s, i) >= SelectedTo(s, i) ==> SelectedTo(s, i) in {0, |s.lines[i].text|})
            else SelectedFrom(s, i) >= SelectedTo(s, i)
  {
    hide Content, LineStart, Locate;
    LocateExact(s.lines, s.selStart);
    LocateExact(s.lines, s.selEnd);
    var sl, el := Locate(s.lines, s.selStart), Locate(s.lines, s.selEnd);
    if sl < i {
      LineStartGrows(s.lines, sl, i);
    }
    if i < el {
      LineStartGrows(s.lines, i, el);
    }
    if i < sl {
      LineStartGrows(s.lines, i, sl);
    }
    if el < i {
      LineStartGrows(s.lines, el, i);
    }
  }

  /** One mark of the kind covers all that is selected of line i. */
  predicate AllStyled(s: Snapshot, i: nat, kind: MarkKind)
    requires i < |s.lines|
  {
    exists m :: m in s.lines[i].marks && m.kind == kind && m.start <= SelectedFrom(s, i) && m.end >= SelectedTo(s, i)
  }

  predicate LinksTo(marks: seq<EditorMark>, href: string, p: nat) {
    Covered(marks, Link, p) && forall m :: m in marks && m.kind == Link && m.start <= p < m.end ==> m.href == Some(href)
  }

  function EditedKind(edit: MarkEdit): MarkKind {
    match edit
    case Toggle(kind) => kind
    case _ => Link
  }

  /** A selected character, at column p of line i, has the style toggled, the link set, or no link. */
  ghost predicate IsEdited(s: Snapshot, edit: MarkEdit, i: nat, after: EditorLine, p: nat)
    requires i < |s.lines|
  {
    match edit
    case Toggle(kind) =>
      && (Covered(after.marks, kind, p) <==> !AllStyled(s, i, kind))
      && (kind == Link && !AllStyled(s, i, kind) ==> LinksTo(after.marks, "https://", p))
    case SetLink(href) => LinksTo(after.marks, href, p)
    case DropLink => !Covered(after.marks, Link, p)
  }

  /** Styling touches every selected character of every line, other lines not at all, and marks of other
      kinds nowhere. */
  lemma MarkedMeaning(s: Snapshot, edit: MarkEdit, i: nat)
    requires Sane(s) && s.selStart < s.selEnd && i < |s.lines|
    ensures var after := Step(s, MarkSelection(edit));
            && after == s.(lines := after.lines) && |after.lines| == |s.lines|
            && after.lines[i] == s.lines[i].(marks := after.lines[i].marks)
            && (SelectedFrom(s, i) >= SelectedTo(s, i) ==> after.lines[i] == s.lines[i])
            && (forall p :: SelectedFrom(s, i) <= p < SelectedTo(s, i) ==> IsEdited(s, edit, i, after.lines[i], p))
            && (forall m: EditorMark :: m.kind != EditedKind(edit) ==> (m in after.lines[i].marks <==> m in s.lines[i].marks))
  {
    hide Content, LineStart, Locate, Column, AllMarksInside, EditMarks, IsEdited;
    SelectedColumns(s, i);
    LocateExact(s.lines, s.selEnd);
    assert MarksInside(s.lines[i]) by { InsideAt(s.lines, i); }
    EditedLine(s, edit, i);
  }

  lemma EditedLine(s: Snapshot, edit: MarkEdit, i: nat)
    requires i < |s.lines| && MarksInside(s.lines[i])
    ensures var from, to := SelectedFrom(s, i), SelectedTo(s, i);
            var after := EditMarks(edit, s.lines[i], from, to);
            && after == s.lines[i].(marks := after.marks)
            && (from >= to && to in {0, |s.lines[i].text|} ==> after == s.lines[i])
            && (forall p :: from <= p < to ==> IsEdited(s, edit, i, after, p))
            && (forall m: EditorMark :: m.kind != EditedKind(edit) ==> (m in after.marks <==> m in s.lines[i].marks))
  {
    var from, to := SelectedFrom(s, i), SelectedTo(s, i);
    if edit == DropLink && from >= to && to in {0, |s.lines[i].text|} {
      NoneTouched(s.lines[i].marks, from, to);
    }
  }

  lemma InsideAt(lines: Lines, i: nat)
    requires i < |lines| && AllMarksInside(lines)
    ensures MarksInside(lines[i])
  {
    hide MarksInside;
    assert lines[i] in lines;
  }

  lemma {:induction false} NoneTouched(marks: seq<EditorMark>, from: nat, to: nat)
    requires forall m :: m in marks ==> !Overlaps(m, from, to)
    ensures Cleared(marks, Link, from, to) == marks
  {
    if marks != [] {
      NoneTouched(marks[1..], from, to);
    }
  }

  // ---- Blocks ----

  /** The selection, or the caret, is on line i. */
  predicate IsOn(s: Snapshot, i: nat)
    requires i < |s.lines|
  {
    LineStart(s.lines, i) <= s.selEnd && s.selStart <= LineStart(s.lines, i) + |s.lines[i].text|
  }

  lemma IsOnExactly(s: Snapshot, i: nat)
    requires Sane(s) && i < |s.lines|
    ensures IsOn(s, i) <==> Locate(s.lines, s.selStart) <= i <= Locate(s.lines, s.selEnd)
  {
    hide Content, LineStart, Locate;
    LocateMonotone(s.lines, s.selStart, s.selEnd);
    LocateExact(s.lines, s.selStart);
    LocateExact(s.lines, s.selEnd);
    var sl, el := Locate(s.lines, s.selStart), Locate(s.lines, s.selEnd);
    if i < sl {
      LineStartGrows(s.lines, i, sl);
    }
    if sl < i {
      LineStartGrows(s.lines, sl, i);
    }
    if el < i {
      LineStartGrows(s.lines, el, i);
    }
    if i < el {
      LineStartGrows(s.lines, i, el);
    }
  }

  /** Every line of the selection is an item of that kind of list already. */
  predicate IsAllList(s: Snapshot, kind: BlockKind) {
    kind in {BulletItem, OrderedItem, TaskItem(true), TaskItem(false)} &&
    forall i :: 0 <= i < |s.lines| && IsOn(s, i) ==> s.lines[i].block != Image && SameList(s.lines[i].block, kind)
  }

  lemma AllListIs(s: Snapshot, kind: BlockKind)
    requires Sane(s)
    ensures IsAllList(s, kind) <==>
            IsListBlock(kind) && AllInList(s.lines, Locate(s.lines, s.selStart), Locate(s.lines, s.selEnd), kind)
  {
    hide Content, LineStart, Locate, IsOn;
    ListBlocks(kind);
    forall i | 0 <= i < |s.lines|
      ensures IsOn(s, i) <==> Locate(s.lines, s.selStart) <= i <= Locate(s.lines, s.selEnd)
    {
      IsOnExactly(s, i);
    }
  }

  /** Choosing a block kind gives it to every line of the selection but images, tasks unticked and numbers
      started anew unless an ordered item precedes; choosing the list that all of them are in ends it. */
  lemma BlocksMeaning(s: Snapshot, kind: BlockKind, i: nat)
    requires Sane(s) && i < |s.lines|
    ensures var after, line := Step(s, SetBlock(kind)), s.lines[i];
            && after == s.(lines := after.lines) && |after.lines| == |s.lines|
            && after.lines[i] ==
               if !IsOn(s, i) || line.block == Image then line
               else if IsAllList(s, kind) then line.(block := Paragraph, orderedStart := None)
               else line.(block := if kind.TaskItem? then TaskItem(false) else kind,
                          orderedStart := if kind == OrderedItem && i > 0 && s.lines[i - 1].block == OrderedItem
                                          then line.orderedStart else None)
  {
    hide Content, LineStart, Locate, IsOn, IsAllList, AllInList, IsListBlock;
    IsOnExactly(s, i);
    AllListIs(s, kind);
    SetBlocksAt(s.lines, Locate(s.lines, s.selStart), Locate(s.lines, s.selEnd), kind, i);
    if IsAllList(s, kind) && IsOn(s, i) {
      ListHasNoImage(s, kind, i);
    }
  }

  lemma ListHasNoImage(s: Snapshot, kind: BlockKind, i: nat)
    requires i < |s.lines| && IsAllList(s, kind) && IsOn(s, i)
    ensures s.lines[i].block != Image
  {
    hide IsOn;
  }

  /** Code on every line of the selection is turned off, and otherwise it is turned on; images stay. */
  lemma CodeMeaning(s: Snapshot, i: nat)
    requires Sane(s) && i < |s.lines|
    ensures var after, line := Step(s, ToggleCodeBlock), s.lines[i];
            && after == s.(lines := after.lines) && |after.lines| == |s.lines|
            && after.lines[i] ==
               if !IsOn(s, i) || line.block == Image then line
               else if forall k :: 0 <= k < |s.lines| && IsOn(s, k) ==> s.lines[k].block == CodeBlock
               then line.(block := Paragraph) else line.(block := CodeBlock)
  {
    hide Content, LineStart, Locate, IsOn;
    forall k | 0 <= k < |s.lines|
      ensures IsOn(s, k) <==> Locate(s.lines, s.selStart) <= k <= Locate(s.lines, s.selEnd)
    {
      IsOnExactly(s, k);
    }
  }

  // ---- Images ----

  /** Lines that follow an image: never nothing, and never another image at once. */
  function Following(lines: Lines): Lines {
    if lines == [] || lines[0].block == Image then [EMPTY] + lines else lines
  }

  /** The image lands at the caret: below an image, in place of an empty line, before or after a line whose
      end the caret is at, and between the two parts of any other. */
  lemma ImageLandsAtCaret(s: Snapshot, src: string, ix: nat, col: nat)
    requires Sane(s) && IsAt(s.lines, Caret(s), ix, col) && src != "" && !s.readOnly
    ensures var after, lines, line := Step(s, PlaceImage(src)), s.lines, s.lines[ix];
            var image := EditorLine(Image, "", [], Some(src), None);
            if line.block == Image || (line.text != "" && col == |line.text|) then
              && after.lines == lines[..ix + 1] + [image] + Following(lines[ix + 1..])
              && after.selStart == after.selEnd == LineStart(after.lines, ix + 2)
            else if line.text == "" then
              && after.lines == lines[..ix] + [image] + Following(lines[ix + 1..])
              && after.selStart == after.selEnd == LineStart(after.lines, ix + 1)
            else if col == 0 then
              && after.lines == lines[..ix] + [image] + lines[ix..]
              && after.selStart == after.selEnd == LineStart(after.lines, ix + 1)
            else
              var head, tail := line.(text := line.text[..col], marks := MarksUpTo(line.marks, col)),
                                EditorLine(line.block, line.text[col..], [], None, None);
              && after.lines == lines[..ix] + [head, image, tail] + lines[ix + 1..]
              && after.selStart == after.selEnd == LineStart(after.lines, ix + 2)
  {
    hide Content, LineStart, Locate, Column, AllMarksInside, MarksUpTo;
    AtIs(s.lines, Caret(s), ix, col);
    Landing(s.lines, ix, col, src);
    var placed := InsertImage(s.lines, ix, col, src);
    LineInContent(placed.0, placed.1 + 1);
  }

  lemma Landing(lines: Lines, ix: nat, col: nat, src: string)
    requires ix < |lines| && col <= |lines[ix].text| && src != ""
    ensures var placed, line := InsertImage(lines, ix, col, src), lines[ix];
            var image := EditorLine(Image, "", [], Some(src), None);
            if line.block == Image || (line.text != "" && col == |line.text|) then
              placed == (lines[..ix + 1] + [image] + Following(lines[ix + 1..]), ix + 1)
            else if line.text == "" then placed == (lines[..ix] + [image] + Following(lines[ix + 1..]), ix)
            else if col == 0 then placed == (lines[..ix] + [image] + lines[ix..], ix)
            else placed == (lines[..ix] + [HeadLine(line, col), image, TailLine(line, col)] + lines[ix + 1..], ix + 1)
  {
    hide MarksUpTo;
    var placed := EditorLines.PlaceImage(lines, ix, col, src);
    var k := placed.1 + 1;
    assert k < |placed.0| ==> placed.0[k..] != [] && placed.0[k..][0] == placed.0[k];
    assert placed.0 == placed.0[..k] + placed.0[k..];
    assert placed.0[..k] + ([EMPTY] + placed.0[k..]) == placed.0[..k] + [EMPTY] + placed.0[k..];
    assert WithTrailing(placed.0, placed.1) == placed.0[..k] + Following(placed.0[k..]);
  }

  // ---- Selecting ----

  /** The end of the selection that is not the caret. */
  function Anchor(s: Snapshot): nat {
    if s.reversed then s.selEnd else s.selStart
  }

  /** Moving puts the caret where it is sent, inside the text; selecting moves it too and leaves the other
      end; selecting all takes everything, and a unit is taken as it is given. */
  lemma SelectingMeaning(s: Snapshot, offset: nat, end: nat, back: bool)
    requires Sane(s)
    ensures var at := if offset <= |Content(s.lines)| then offset else |Content(s.lines)|;
            && Step(s, MoveTo(offset)) == Snapshot(s.lines, at, at, false, s.readOnly)
            && var after := Step(s, SelectTo(offset));
               && after.lines == s.lines && after.readOnly == s.readOnly
               && Anchor(after) == Anchor(s) && Caret(after) == at && after.selStart <= after.selEnd
               && (at == Anchor(s) ==> after.reversed == s.reversed)
    ensures Step(s, SelectAll) == Snapshot(s.lines, 0, |Content(s.lines)|, false, s.readOnly)
    ensures offset <= end <= |Content(s.lines)| ==>
              Step(s, SelectUnit(offset, end, back)) == Snapshot(s.lines, offset, end, back, s.readOnly)
  {
  }

  /** Locking the editor forgets the selection, unlocking keeps it; a document that opens replaces all
      lines, one empty paragraph standing for none. */
  lemma LockedAndOpened(s: Snapshot, on: bool, doc: Option<Node>)
    requires Sane(s)
    ensures var after := Step(s, SetReadOnly(on));
            && after.lines == s.lines && after.readOnly == on
            && (on && !s.readOnly ==> after.selStart == after.selEnd == 0 && !after.reversed)
            && (on == s.readOnly || !on ==>
                  after.selStart == s.selStart && after.selEnd == s.selEnd && after.reversed == s.reversed)
    ensures var after := Step(s, SetDoc(doc));
            && after.selStart == after.selEnd == 0 && !after.reversed && after.readOnly == s.readOnly
            && after.lines == if doc.None? || LinesFromDoc(doc.value) == [] then [EMPTY] else LinesFromDoc(doc.value)
    ensures Step(s, ReadDoc) == s
  {
    hide LinesFromDoc, Content;
  }
}
