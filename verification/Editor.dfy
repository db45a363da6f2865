/** The canvas editor: a list of lines and the mirrors every edit must keep in step. */
module Editor {
  import opened Basics
  import opened TipTap
  import opened TipTapLoops
  import opened EditorLines
  import opened EditorSteps
  import opened LoadedLines
  import DocRoundTrip

  /** A mark in content offsets, as the painter reads it. */
  datatype StyledMark = StyledMark(start: nat, end: nat, bold: bool, italic: bool, strike: bool, code: bool, link: bool)

  function Starts(lines: Lines): seq<nat> {
    seq(|lines|, i requires 0 <= i < |lines| => LineStart(lines, i))
  }

  function StyledOf(m: EditorMark, base: nat): StyledMark {
    StyledMark(base + m.start, base + m.end,
               m.kind == Bold, m.kind == Italic, m.kind == Strike, m.kind == Code, m.kind == Link)
  }

  function StyledMarksOf(line: EditorLine, base: nat): seq<StyledMark> {
    seq(|line.marks|, i requires 0 <= i < |line.marks| => StyledOf(line.marks[i], base)) +
    if line.block == CodeBlock && line.text != ""
    then [StyledMark(base, base + |line.text|, false, false, false, true, false)] else []
  }

  function StyledFrom(lines: Lines, i: nat): seq<StyledMark>
    requires i <= |lines|
    decreases |lines| - i
  {
    if i == |lines| then [] else StyledMarksOf(lines[i], LineStart(lines, i)) + StyledFrom(lines, i + 1)
  }

  class CanvasEditor {
    var lines: Lines
    var content: string
    var lineStarts: seq<nat>
    var styledMarks: seq<StyledMark>
    var selStart: nat
    var selEnd: nat
    var reversed: bool
    var readOnly: bool
    var docJsonCache: Option<Node>

    /** Everything derived from the lines is what the lines say. */
    ghost predicate Mirrors()
      reads this
    {
      && content == Content(lines)
      && lineStarts == Starts(lines)
      && styledMarks == StyledFrom(lines, 0)
      && (docJsonCache.Some? ==> docJsonCache.value == PrintDoc(lines))
    }

    /** All of the invariant but the selection, which an edit moves last. */
    ghost predicate Sound()
      reads this
    {
      lines != [] && AllMarksInside(lines) && Mirrors()
    }

    ghost predicate Valid()
      reads this
    {
      Sound() && selStart <= selEnd <= |content|
    }

    /** What commands see and change. */
    function Snap(): Snapshot
      reads this
    {
      Snapshot(lines, selStart, selEnd, reversed, readOnly)
    }

    function Caret(): nat
      reads this
    {
      if reversed then selStart else selEnd
    }

    /** Where the caret is collapsed to. */
    ghost predicate CaretAt(offset: nat)
      reads this
    {
      selStart == selEnd == offset && !reversed
    }

    constructor ()
      ensures Valid() && lines == [DEFAULT_LINE] && CaretAt(0) && !readOnly
    {
      lines := [DEFAULT_LINE];
      selStart, selEnd, reversed := 0, 0, false;
      readOnly := false;
      docJsonCache := None;
      content, lineStarts, styledMarks := "", [], [];
      new;
      RebuildBuffer();
    }

    method RebuildBuffer()
      modifies this`content, this`lineStarts, this`styledMarks, this`docJsonCache
      ensures Mirrors() && docJsonCache.None?
    {
      hide StyledFrom, StyledMarksOf, LineStart, Content, PrintDoc;
      docJsonCache := None;
      var text, starts: seq<nat>, styled := "", [], [];
      NoContent(lines);
      for ix := 0 to |lines|
        invariant text == Content(lines[..ix])
        invariant starts == Starts(lines)[..ix]
        invariant styled + StyledFrom(lines, ix) == StyledFrom(lines, 0)
        modifies {}
      {
        var line := lines[ix];
        PrefixGrows(lines, ix);
        StyledStep(lines, ix, styled);
        if ix > 0 {
          text := text + "\n";
        }
        starts := starts + [|text|];
        var own := StyledMarksLoop(line, |text|);
        styled := styled + own;
        text := text + line.text;
      }
      assert lines[..|lines|] == lines;
      NothingAdded(styled);
      content, lineStarts, styledMarks := text, starts, styled;
    }

    /** The cached print, made when missing. */
    method DocJson() returns (json: Node)
      requires Valid()
      modifies this`docJsonCache
      ensures Valid() && json == PrintDoc(lines) && docJsonCache == Some(json)
    {
      if docJsonCache.Some? {
        return docJsonCache.value;
      }
      json := LinesToTipTapJson(lines);
      docJsonCache := Some(json);
    }

    method OffsetToLineCol(offset: nat) returns (ix: nat, col: nat)
      requires lines != [] && Mirrors()
      ensures ix == Locate(lines, Min(offset, |content|)) && col == Column(lines, Min(offset, |content|))
      ensures ix < |lines| && col <= |lines[ix].text|
      ensures LineStart(lines, ix) + col == Min(offset, |content|)
    {
      hide Content, LineStart, StyledFrom, PrintDoc;
      var at := Min(offset, |content|);
      LocateExact(lines, at);
      ix := |lineStarts| - 1;
      while ix > 0 && at < lineStarts[ix]
        invariant 0 <= ix < |lines|
        invariant LocateFrom(lines, at, ix) == Locate(lines, at)
      {
        ix := ix - 1;
      }
      col := Min(at - lineStarts[ix], |lines[ix].text|);
    }

    method MoveTo(offset: nat)
      requires Sound()
      modifies this`selStart, this`selEnd, this`reversed
      ensures Valid() && CaretAt(Min(offset, |content|))
      ensures Snap() == WithCaret(old(Snap()), lines, offset)
    {
      var at := Min(offset, |content|);
      selStart, selEnd, reversed := at, at, false;
    }

    /** The end that is not the caret stays; the ends swap when the caret passes it. */
    method SelectTo(offset: nat)
      requires Valid()
      modifies this`selStart, this`selEnd, this`reversed
      ensures Valid() && Caret() == Min(offset, |content|)
      ensures var anchor, at := old(if reversed then selEnd else selStart), Min(offset, |content|);
              selStart == Min(anchor, at) && selEnd == Max(anchor, at)
      ensures Snap() == Selected(old(Snap()), offset)
    {
      var at := Min(offset, |content|);
      if reversed {
        selStart := at;
      } else {
        selEnd := at;
      }
      if selEnd < selStart {
        reversed := !reversed;
        selStart, selEnd := selEnd, selStart;
      }
    }

    method SelectAll()
      requires Valid()
      modifies this`selStart, this`selEnd, this`reversed
      ensures Valid() && selStart == 0 && selEnd == |content| && !reversed
      ensures Snap() == Step(old(Snap()), Command.SelectAll)
    {
      selStart, selEnd, reversed := 0, |content|, false;
    }

    /** Line and column of both ends of the selection. */
    method SelectionLineRange() returns (sl: nat, sc: nat, el: nat, ec: nat)
      requires Valid()
      ensures sl <= el < |lines| && sc <= |lines[sl].text| && ec <= |lines[el].text|
      ensures sl == Locate(lines, selStart) && sc == Column(lines, selStart)
      ensures el == Locate(lines, selEnd) && ec == Column(lines, selEnd)
    {
      sl, sc := OffsetToLineCol(selStart);
      el, ec := OffsetToLineCol(selEnd);
      LocateMonotone(lines, selStart, selEnd);
    }

    // ---- Replacing text ----

    /** Every replacement, deletion, typing and paste. Three outcomes: deleting over images removes
        the image lines and nothing else; an edit that starts on an image line does nothing; any
        other edit is a string splice. */
    method ReplaceTextInRange(rangeStart: nat, rangeEnd: nat, newText: string)
      requires Valid() && rangeStart <= rangeEnd
      modifies this
      ensures Valid() && readOnly == old(readOnly)
      ensures var start, end := Min(rangeStart, |old(content)|), Min(rangeEnd, |old(content)|);
              if newText == "" && ImageBetween(old(lines), start, end) then
                && lines == WithoutImagesBetween(old(lines), start, end)
                && CaretAt(StartOr0(lines, Locate(old(lines), start)))
              else if old(lines)[Locate(old(lines), start)].block == Image then
                unchanged(this)
              else
                && content == old(content)[..start] + newText + old(content)[end..]
                && CaretAt(start + |newText|)
                && lines == ReplaceBetween(old(lines), start, end, newText)
      ensures Snap() == Replaced(old(Snap()), rangeStart, rangeEnd, newText)
    {
      hide Content, LineStart, StyledFrom, PrintDoc, Locate, Column, ReplaceLines, AllMarksInside, WithoutImages, HasImage;
      var start, end := Min(rangeStart, |content|), Min(rangeEnd, |content|);
      var sl, sc := OffsetToLineCol(start);
      var el, ec := OffsetToLineCol(end);
      LocateMonotone(lines, start, end);
      if newText == "" {
        var removed := RemoveImageLines(sl, el);
        if removed {
          return;
        }
      }
      if lines[sl].block == Image {
        return;
      }
      ReplaceTextAt(sl, sc, el, ec, newText, start + |newText|);
    }

    /** The text between two positions, and the caret after what takes its place. */
    method ReplaceTextAt(sl: nat, sc: nat, el: nat, ec: nat, newText: string, newCursor: nat)
      requires Valid() && sl <= el < |lines| && sc <= |lines[sl].text| && ec <= |lines[el].text| && (sl == el ==> sc <= ec)
      requires newCursor == LineStart(lines, sl) + sc + |newText|
      modifies this
      ensures Valid() && readOnly == old(readOnly) && CaretAt(newCursor)
      ensures lines == ReplaceLines(old(lines), sl, sc, el, ec, newText)
      ensures LineStart(old(lines), sl) + sc <= |old(content)| && LineStart(old(lines), el) + ec <= |old(content)|
      ensures content == old(content)[..LineStart(old(lines), sl) + sc] + newText
                         + old(content)[LineStart(old(lines), el) + ec..]
    {
      hide Content, LineStart, StyledFrom, PrintDoc, ReplaceLines, AllMarksInside;
      ReplaceLinesContent(lines, sl, sc, el, ec, newText);
      ReplaceLinesMarks(lines, sl, sc, el, ec, newText);
      ReplaceLinesLonger(lines, sl, sc, el, ec, newText);
      WriteReplacement(sl, sc, el, ec, newText);
      RebuildBuffer();
      selStart, selEnd, reversed := newCursor, newCursor, false;
    }

    method RemoveImageLines(sl: nat, el: nat) returns (removed: bool)
      requires Valid() && sl <= el < |lines|
      modifies this
      ensures removed <==> HasImage(old(lines)[sl..el + 1])
      ensures removed ==> Valid() && lines == WithoutImages(old(lines), sl, el) && CaretAt(StartOr0(lines, sl))
      ensures !removed ==> unchanged(this)
      ensures readOnly == old(readOnly)
    {
      hide Content, LineStart, StyledFrom, PrintDoc, NonImages, AllMarksInside, HasImage;
      var left: Lines;
      left, removed := DropImages(lines, sl, el);
      if removed {
        NonImagesMarks(lines, sl, el);
        ReplaceAllLines(left);
        var cursor := if sl < |lineStarts| then lineStarts[sl] else 0;
        if sl < |lines| {
          LineInContent(lines, sl);
        }
        selStart, selEnd, reversed := cursor, cursor, false;
      }
    }

    /** New lines, never none. */
    method ReplaceAllLines(left: Lines)
      requires AllMarksInside(left)
      modifies this`lines, this`content, this`lineStarts, this`styledMarks, this`docJsonCache
      ensures Sound() && lines == OrDefault(left)
    {
      lines := left;
      if lines == [] {
        lines := [DEFAULT_LINE];
      }
      RebuildBuffer();
    }

    method WriteReplacement(sl: nat, sc: nat, el: nat, ec: nat, newText: string)
      requires sl <= el < |lines| && sc <= |lines[sl].text| && ec <= |lines[el].text| && (sl == el ==> sc <= ec)
      requires AllMarksInside(lines)
      modifies this`lines
      ensures lines == ReplaceLines(old(lines), sl, sc, el, ec, newText)
    {
      hide ShiftMarks;
      assert lines[sl] in lines;
      if sl == el {
        var line := lines[sl];
        var marks := ShiftMarksLoop(line.marks, sc, ec, |newText|);
        lines := lines[sl := line.(text := line.text[..sc] + newText + line.text[ec..], marks := marks)];
      } else {
        var merged := lines[sl].text[..sc];
        merged := merged + newText;
        merged := merged + lines[el].text[ec..];
        lines := lines[sl := lines[sl].(text := merged, marks := MarksUpTo(lines[sl].marks, sc))];
        lines := lines[..sl + 1] + lines[el + 1..];
      }
    }

    method RemoveLine(ix: nat)
      requires Valid() && ix < |lines|
      modifies this
      ensures Valid() && lines == LineRemoved(old(lines), ix) && CaretAt(StartOr0(lines, ix))
      ensures readOnly == old(readOnly)
      ensures Snap() == WithoutLine(old(Snap()), ix)
    {
      hide Content, LineStart, StyledFrom, PrintDoc, AllMarksInside;
      RemovalMarks(lines, ix);
      ReplaceAllLines(lines[..ix] + lines[ix + 1..]);
      if ix < |lines| {
        LineInContent(lines, ix);
      }
      var offset := Min(if ix < |lineStarts| then lineStarts[ix] else 0, |content|);
      selStart, selEnd, reversed := offset, offset, false;
    }

    // ---- Splitting and joining ----

    method SplitParagraph()
      requires Valid()
      modifies this
      ensures Valid() && readOnly == old(readOnly)
      ensures var at := old(Caret());
              var ix := Locate(old(lines), at);
              var line := old(lines)[ix];
              && lines == SplitLines(old(lines), ix, Column(old(lines), at))
              && if line.block == Image then CaretAt(LineStart(lines, ix + 1))
                 else if IsListBlock(line.block) && line.text == "" then CaretAt(at)
                 else content == old(content)[..at] + "\n" + old(content)[at..] && CaretAt(at + 1)
      ensures Snap() == Parted(old(Snap()))
    {
      hide Content, LineStart, StyledFrom, PrintDoc, Locate, Column, AllMarksInside;
      var cursor := Caret();
      var ix, col := OffsetToLineCol(cursor);
      ghost var was := lines;
      if lines[ix].block == Image {
        AddLineBelow(ix);
        return;
      }
      if IsListBlock(lines[ix].block) && lines[ix].text == "" {
        LiftListLineToParagraph(ix);
        SameStart(was, lines, ix);
        return;
      }
      SplitTextLine(ix, col);
    }

    method AddLineBelow(ix: nat)
      requires Valid() && ix < |lines| && lines[ix].block == Image
      modifies this
      ensures Valid() && readOnly == old(readOnly)
      ensures lines == SplitLines(old(lines), ix, 0) && ix + 1 < |lines| && CaretAt(LineStart(lines, ix + 1))
    {
      hide Content, LineStart, StyledFrom, PrintDoc, AllMarksInside;
      SplitLinesMarks(lines, ix, 0);
      lines := lines[..ix + 1] + [DEFAULT_LINE] + lines[ix + 1..];
      RebuildBuffer();
      LineInContent(lines, ix + 1);
      MoveTo(lineStarts[ix + 1]);
    }

    /** A code block keeps its one line; any other text line becomes two. */
    method SplitTextLine(ix: nat, col: nat)
      requires Valid() && ix < |lines| && col <= |lines[ix].text|
      requires lines[ix].block != Image && !(IsListBlock(lines[ix].block) && lines[ix].text == "")
      modifies this
      ensures Valid() && readOnly == old(readOnly)
      ensures lines == SplitLines(old(lines), ix, col)
      ensures var at := LineStart(old(lines), ix) + col;
              && at <= |old(content)| && content == old(content)[..at] + "\n" + old(content)[at..]
              && CaretAt(at + 1)
    {
      hide Content, LineStart, StyledFrom, PrintDoc, AllMarksInside, MarksUpTo, TailMarks;
      ghost var was := lines;
      var cursor := lineStarts[ix] + col;
      SplitLinesMarks(lines, ix, col);
      SplitLinesContent(lines, ix, col);
      var current := lines[ix];
      var tailText := current.text[col..];
      var tailMarks := TailMarks(current.marks, col);
      var head := current.(text := current.text[..col], marks := MarksUpTo(current.marks, col));
      if current.block == CodeBlock {
        lines := lines[ix := head.(text := head.text + "\n" + tailText)];
        assert lines == SplitLines(was, ix, col);
        RebuildBuffer();
        MoveTo(cursor + 1);
        return;
      }
      var tail := EditorLine(BlockAfterSplit(current.block), tailText, tailMarks, None, None);
      lines := lines[..ix] + [head, tail] + lines[ix + 1..];
      assert lines == SplitLines(was, ix, col);
      RebuildBuffer();
      SameStart(was, lines, ix);
      NextStart(lines, ix);
      MoveTo(lineStarts[ix + 1]);
    }

    method InsertHardBreak()
      requires Valid()
      modifies this
      ensures Valid() && readOnly == old(readOnly)
      ensures var at := old(Caret());
              var ix := Locate(old(lines), at);
              && old(lines)[ix] in old(lines)
              && lines == old(lines)[ix := BreakInLine(old(lines)[ix], Column(old(lines), at))]
              && content == old(content)[..at] + "\n" + old(content)[at..]
              && CaretAt(at + 1)
      ensures Snap() == Broken(old(Snap()))
    {
      hide Content, LineStart, StyledFrom, PrintDoc, Locate, Column, ShiftMarks;
      var cursor := Caret();
      var ix, col := OffsetToLineCol(cursor);
      var line := lines[ix];
      assert line in lines;
      ghost var was := lines;
      var marks := ShiftMarksLoop(line.marks, col, col, 1);
      var broken := line.(text := line.text[..col] + "\n" + line.text[col..], marks := marks);
      BreakContent(lines, ix, col, broken);
      BreakMarks(lines, ix, col);
      assert Splice(lines, ix, ix + 1, [broken]) == lines[ix := broken];
      lines := lines[ix := broken];
      RebuildBuffer();
      SameStart(was, lines, ix);
      MoveTo(lineStarts[ix] + col + 1);
    }

    /** Joining removes exactly the separator before line ix and leaves the caret at the seam. */
    method JoinLineWithPrevious(ix: nat)
      requires Valid() && 0 < ix < |lines|
      modifies this
      ensures Valid() && readOnly == old(readOnly)
      ensures lines == JoinLines(old(lines), ix)
      ensures var start := LineStart(old(lines), ix);
              && 0 < start <= |old(content)|
              && content == old(content)[..start - 1] + old(content)[start..]
              && CaretAt(start - 1)
    {
      hide Content, LineStart, StyledFrom, PrintDoc, AllMarksInside, Appended;
      JoinLinesMarks(lines, ix);
      JoinLinesContent(lines, ix);
      NextStart(lines, ix - 1);
      ghost var was := lines;
      var tail := lines[ix];
      var joinAt := |lines[ix - 1].text|;
      var prev := lines[ix - 1];
      var marks := prev.marks;
      for k := 0 to |tail.marks|
        invariant marks == prev.marks + Appended(tail.marks, joinAt)[..k]
        modifies {}
      {
        var mark := tail.marks[k];
        marks := marks + [mark.(start := mark.start + joinAt, end := mark.end + joinAt)];
      }
      assert marks == prev.marks + Appended(tail.marks, joinAt);
      lines := lines[..ix - 1] + [prev.(text := prev.text + tail.text, marks := marks)] + lines[ix + 1..];
      assert lines == JoinLines(was, ix);
      RebuildBuffer();
      SameStart(was, lines, ix - 1);
      MoveTo(lineStarts[ix - 1] + joinAt);
    }

    method LiftListLineToParagraph(ix: nat)
      requires Valid() && ix < |lines|
      modifies this
      ensures Valid() && readOnly == old(readOnly) && content == old(content)
      ensures lines == old(lines)[ix := AsParagraph(old(lines)[ix])] && CaretAt(LineStart(lines, ix))
    {
      hide Content, LineStart, StyledFrom, PrintDoc;
      var lifted := lines[ix := AsParagraph(lines[ix])];
      SameTextsAndMarks(lifted, lines);
      lines := lifted;
      RebuildBuffer();
      LineInContent(lines, ix);
      MoveTo(lineStarts[ix]);
    }

    method RemoveEmptyListLine(ix: nat)
      requires Valid() && ix < |lines|
      modifies this
      ensures Valid() && readOnly == old(readOnly)
      ensures ix == 0 ==> lines == old(lines)[ix := AsParagraph(old(lines)[ix])] && CaretAt(0)
      ensures ix > 0 ==>
                && lines == old(lines)[..ix] + old(lines)[ix + 1..]
                && CaretAt(LineStart(lines, ix - 1) + |lines[ix - 1].text|)
    {
      hide Content, LineStart, StyledFrom, PrintDoc, AllMarksInside;
      if ix == 0 {
        LiftListLineToParagraph(ix);
        FirstLineStart(lines);
        return;
      }
      var prevLen := |lines[ix - 1].text|;
      RemovalMarks(lines, ix);
      lines := lines[..ix] + lines[ix + 1..];
      RebuildBuffer();
      LineInContent(lines, ix - 1);
      MoveTo(lineStarts[ix - 1] + prevLen);
    }

    /** Backspace at the start of a line; only list lines are handled. */
    method HandleListBackspaceAtLineStart(ix: nat) returns (handled: bool)
      requires Valid() && ix < |lines|
      modifies this
      ensures Valid() && readOnly == old(readOnly)
      ensures handled <==> IsListBlock(old(lines)[ix].block)
      ensures !handled ==> unchanged(this)
      ensures handled ==> Snap() == ListBackspaced(old(Snap()), ix)
    {
      hide Content, StyledFrom, PrintDoc, AllMarksInside;
      var block := lines[ix].block;
      if !IsListBlock(block) {
        return false;
      }
      if lines[ix].text == "" {
        RemoveEmptyListLine(ix);
        return true;
      }
      if ix == 0 || !ListBlocksSame(lines[ix - 1].block, block) {
        LiftListLineToParagraph(ix);
        return true;
      }
      JoinLineWithPrevious(ix);
      return true;
    }

    /** previous is the grapheme boundary before the caret. An image at or right before the caret goes;
        a list start is handled by itself; otherwise the selection, or the text back to the boundary,
        is deleted. */
    method Backspace(previous: nat)
      requires Valid() && previous <= Caret()
      modifies this
      ensures Valid() && readOnly == old(readOnly)
      ensures Snap() == Backspaced(old(Snap()), previous)
    {
      hide Content, LineStart, StyledFrom, PrintDoc, Locate, Column, AllMarksInside, Replaced, WithoutLine, ListBackspaced,
           Selected, IsListBlock;
      ghost var before := Snap();
      var cursor := Caret();
      var ix, col := OffsetToLineCol(cursor);
      if lines[ix].block == Image {
        RemoveLine(ix);
        return;
      }
      if col == 0 && ix > 0 && lines[ix - 1].block == Image {
        RemoveLine(ix - 1);
        return;
      }
      if col == 0 && selStart == selEnd {
        var handled := HandleListBackspaceAtLineStart(ix);
        if handled {
          return;
        }
      }
      if selStart == selEnd {
        if Caret() == previous {
          return;
        }
        SelectTo(previous);
        SelectedRange(before, previous);
      }
      SelectionForgotten(before, Snap(), selStart, selEnd);
      ReplaceTextInRange(selStart, selEnd, "");
    }

    /** next is the grapheme boundary after the caret. */
    method Delete(next: nat)
      requires Valid() && Caret() <= next <= |content|
      modifies this
      ensures Valid() && readOnly == old(readOnly)
      ensures Snap() == Deleted(old(Snap()), next)
    {
      hide Content, LineStart, StyledFrom, PrintDoc, Locate, Column, AllMarksInside, Replaced, WithoutLine, ListBackspaced,
           Selected, IsListBlock;
      ghost var before := Snap();
      var cursor := Caret();
      var ix, col := OffsetToLineCol(cursor);
      if lines[ix].block == Image {
        RemoveLine(ix);
        return;
      }
      if ix + 1 < |lines| && lines[ix + 1].block == Image && col == |lines[ix].text| {
        RemoveLine(ix + 1);
        return;
      }
      if selStart == selEnd {
        if Caret() == next {
          return;
        }
        SelectTo(next);
        SelectedRange(before, next);
      }
      SelectionForgotten(before, Snap(), selStart, selEnd);
      ReplaceTextInRange(selStart, selEnd, "");
    }

    // ---- Formatting ----

    /** Bold, italic, strike, code, setting or dropping a link: content and selection stay. */
    method MarkSelection(edit: MarkEdit)
      requires Valid()
      modifies this
      ensures Valid() && readOnly == old(readOnly) && content == old(content)
      ensures selStart == old(selStart) && selEnd == old(selEnd) && reversed == old(reversed)
      ensures lines == if old(selStart == selEnd) then old(lines) else
                         OverSelection(edit, old(lines),
                                       Locate(old(lines), old(selStart)), Column(old(lines), old(selStart)),
                                       Locate(old(lines), old(selEnd)), Column(old(lines), old(selEnd)))
      ensures Snap() == Marked(old(Snap()), edit)
    {
      hide Content, LineStart, StyledFrom, PrintDoc, Locate, Column, EditMarks, AllMarksInside;
      if selStart == selEnd {
        return;
      }
      var sl, sc, el, ec := SelectionLineRange();
      OverSelectionKeeps(edit, lines, sl, sc, el, ec);
      for ix := sl to el + 1
        invariant |lines| == |old(lines)|
        invariant forall i :: 0 <= i < |lines| ==>
                    lines[i] == if sl <= i < ix
                                then EditMarks(edit, old(lines)[i], SelStart(i, sl, sc), SelEnd(old(lines), i, el, ec))
                                else old(lines)[i]
        modifies this`lines
      {
        var from, to := if ix == sl then sc else 0, if ix == el then ec else |lines[ix].text|;
        lines := lines[ix := EditMarks(edit, lines[ix], from, to)];
      }
      assert lines == OverSelection(edit, old(lines), sl, sc, el, ec);
      RebuildBuffer();
    }

    method SetBlockKind(kind: BlockKind)
      requires Valid()
      modifies this
      ensures Valid() && readOnly == old(readOnly) && content == old(content)
      ensures selStart == old(selStart) && selEnd == old(selEnd) && reversed == old(reversed)
      ensures lines == SetBlocks(old(lines), Locate(old(lines), old(selStart)), Locate(old(lines), old(selEnd)), kind)
      ensures Snap() == Blocked(old(Snap()), kind)
    {
      hide Content, LineStart, StyledFrom, PrintDoc, Locate, Column;
      var start, _, end, _ := SelectionLineRange();
      var lift := AllInListLoop(start, end, kind);
      SameTextsAndMarks(SetBlocks(lines, start, end, kind), lines) by { SetBlocksKeeps(lines, start, end, kind); }
      WriteBlocks(start, end, kind, lift);
      RebuildBuffer();
    }

    method WriteBlocks(start: nat, end: nat, kind: BlockKind, lift: bool)
      requires start <= end < |lines| && (lift <==> IsListBlock(kind) && AllInList(lines, start, end, kind))
      modifies this`lines
      ensures lines == SetBlocks(old(lines), start, end, kind)
    {
      hide SetBlocks, BlockSet, AllInList;
      var was := lines;
      var startsNewRun := seq(end + 1 - start, k requires 0 <= k < end + 1 - start =>
        start + k == 0 || was[start + k - 1].block != OrderedItem);
      for ix := start to end + 1
        invariant |lines| == |was|
        invariant forall i :: 0 <= i < |lines| ==>
                    lines[i] == if start <= i < ix then SetBlocks(was, start, end, kind)[i] else was[i]
      {
        SetBlocksAt(was, start, end, kind, ix);
        var line := lines[ix];
        if lift {
          lines := lines[ix := AsParagraph(line)];
        } else {
          lines := lines[ix := BlockSet(line, kind, startsNewRun[ix - start])];
        }
      }
      forall i | 0 <= i < |was| && !(start <= i <= end)
        ensures SetBlocks(was, start, end, kind)[i] == was[i]
      {
        SetBlocksAt(was, start, end, kind, i);
      }
    }

    /** The list button lifts only when every line is already such an item. */
    method AllInListLoop(start: nat, end: nat, kind: BlockKind) returns (lift: bool)
      requires start <= end < |lines|
      ensures lift <==> IsListBlock(kind) && AllInList(lines, start, end, kind)
    {
      lift := IsListBlock(kind);
      var i := start;
      while lift && i <= end
        invariant start <= i <= end + 1
        invariant lift ==> IsListBlock(kind)
        invariant lift ==> forall k :: start <= k < i ==> lines[k].block != Image && ListBlocksSame(lines[k].block, kind)
        invariant !lift ==> !(IsListBlock(kind) && AllInList(lines, start, end, kind))
      {
        lift := lines[i].block != Image && ListBlocksSame(lines[i].block, kind);
        i := i + 1;
      }
    }

    method ToggleCodeBlock()
      requires Valid()
      modifies this
      ensures Valid() && readOnly == old(readOnly) && content == old(content)
      ensures selStart == old(selStart) && selEnd == old(selEnd) && reversed == old(reversed)
      ensures lines == ToggleCode(old(lines), Locate(old(lines), old(selStart)), Locate(old(lines), old(selEnd)))
      ensures Snap() == CodeToggled(old(Snap()))
    {
      hide Content, LineStart, StyledFrom, PrintDoc, Locate, Column;
      var start, _, end, _ := SelectionLineRange();
      SameTextsAndMarks(ToggleCode(lines, start, end), lines);
      var kind := if AllCode(lines, start, end) then Paragraph else CodeBlock;
      for ix := start to end + 1
        invariant |lines| == |old(lines)|
        invariant forall i :: 0 <= i < |lines| ==>
                    lines[i] == if start <= i < ix then ToggleCode(old(lines), start, end)[i] else old(lines)[i]
        modifies this`lines
      {
        if lines[ix].block != Image {
          lines := lines[ix := lines[ix].(block := kind)];
        }
      }
      assert lines == ToggleCode(old(lines), start, end);
      RebuildBuffer();
    }

    // ---- Images and documents ----

    /** The image stands on its own line, a text line follows it, and the caret starts that line. */
    method InsertImageAt(src: string)
      requires Valid()
      modifies this
      ensures Valid() && readOnly == old(readOnly)
      ensures if old(readOnly) || src == "" then unchanged(this) else
                var at := old(Caret());
                var placed := InsertImage(old(lines), Locate(old(lines), at), Column(old(lines), at), src);
                lines == placed.0 && CaretAt(LineStart(lines, placed.1 + 1))
      ensures Snap() == Placed(old(Snap()), src)
    {
      hide Content, LineStart, StyledFrom, PrintDoc, Locate, Column, AllMarksInside, EditorLines.PlaceImage, WithTrailing;
      if readOnly || src == "" {
        return;
      }
      var ix, col := OffsetToLineCol(Caret());
      PlaceImageMarks(lines, ix, col, src);
      var imageIx := PlaceImageLine(ix, col, src);
      TrailingMarks(lines, imageIx);
      PlaceTrailingLine(imageIx);
      RebuildBuffer();
      LineInContent(lines, imageIx + 1);
      MoveTo(lineStarts[imageIx + 1]);
    }

    /** An image is always followed by a line to type in. */
    method PlaceTrailingLine(imageIx: nat)
      requires imageIx < |lines|
      modifies this`lines
      ensures lines == WithTrailing(old(lines), imageIx)
    {
      if imageIx + 1 == |lines| || lines[imageIx + 1].block == Image {
        lines := lines[..imageIx + 1] + [DEFAULT_LINE] + lines[imageIx + 1..];
      }
    }

    method PlaceImageLine(ix: nat, col: nat, src: string) returns (imageIx: nat)
      requires ix < |lines| && col <= |lines[ix].text|
      modifies this`lines
      ensures var placed := EditorLines.PlaceImage(old(lines), ix, col, src);
              lines == placed.0 && imageIx == placed.1
    {
      var image := ImageLine(src);
      var line := lines[ix];
      if line.block == Image {
        lines := lines[..ix + 1] + [image] + lines[ix + 1..];
        imageIx := ix + 1;
      } else if line.text == "" {
        assert lines[ix := image] == Splice(lines, ix, ix + 1, [image]);
        lines := lines[ix := image];
        imageIx := ix;
      } else if col == 0 {
        lines := lines[..ix] + [image] + lines[ix..];
        imageIx := ix;
      } else if col >= |line.text| {
        lines := lines[..ix + 1] + [image] + lines[ix + 1..];
        imageIx := ix + 1;
      } else {
        lines := lines[..ix] + [HeadLine(line, col), image, TailLine(line, col)] + lines[ix + 1..];
        imageIx := ix + 1;
      }
    }

    method SetReadOnly(on: bool)
      requires Valid()
      modifies this`readOnly, this`selStart, this`selEnd, this`reversed
      ensures Valid() && readOnly == on
      ensures on && !old(readOnly) ==> CaretAt(0)
      ensures !(on && !old(readOnly)) ==> selStart == old(selStart) && selEnd == old(selEnd) && reversed == old(reversed)
      ensures Snap() == Locked(old(Snap()), on)
    {
      if readOnly == on {
        return;
      }
      readOnly := on;
      if on {
        selStart, selEnd, reversed := 0, 0, false;
      }
    }

    /** Loading a document; None is one that could not be parsed. */
    method SetDoc(doc: Option<Node>)
      requires Valid()
      modifies this
      ensures Valid() && readOnly == old(readOnly) && CaretAt(0)
      ensures lines == OrDefault(if doc.Some? then LinesFromDoc(doc.value) else [])
      ensures Snap() == Opened(old(Snap()), doc)
    {
      hide LinesFromDoc, Content, StyledFrom, PrintDoc;
      lines := [DEFAULT_LINE];
      if doc.Some? {
        DocIsLoaded(doc.value);
        lines := LinesFromDocLoop(doc.value);
      }
      ReplaceAllLines(lines);
      selStart, selEnd, reversed := 0, 0, false;
    }

    // ---- Every run ----

    /** One command: the method that carries it out makes the step. */
    method Execute(command: Command)
      requires Valid()
      modifies this
      ensures Valid() && Snap() == Step(old(Snap()), command)
    {
      hide Content, LineStart, StyledFrom, PrintDoc, Locate, Column, AllMarksInside, Replaced, Parted, Broken,
           Backspaced, Deleted, Marked, Placed, Blocked, CodeToggled, Locked, Opened, WithCaret, Selected, Starts;
      match command
      case MoveTo(offset) => MoveTo(offset);
      case SelectTo(offset) => SelectTo(offset);
      case SelectAll => SelectAll();
      case SelectUnit(start, end, rev) =>
        if start <= end <= |content| {
          selStart, selEnd, reversed := start, end, rev;
        }
      case TypeOrPaste(text) => ReplaceTextInRange(selStart, selEnd, text);
      case Backspace(previous) => if previous <= Caret() { Backspace(previous); }
      case Delete(next) => if Caret() <= next <= |content| { Delete(next); }
      case Enter => SplitParagraph();
      case ShiftEnter => InsertHardBreak();
      case MarkSelection(edit) => MarkSelection(edit);
      case SetBlock(kind) => SetBlockKind(kind);
      case ToggleCodeBlock => ToggleCodeBlock();
      case PlaceImage(src) => InsertImageAt(src);
      case SetReadOnly(on) => SetReadOnly(on);
      case SetDoc(doc) => SetDoc(doc);
      case ReadDoc => var _ := DocJson();
    }
  }

  /** From a new editor, any commands lead to the lines and the selection that the steps give, with
      every mirror in step and the document handed out a fresh print. That document loads back with
      the same blocks, texts and images exactly when every image line is still plain. */
  method RunFromNew(commands: seq<Command>) returns (editor: CanvasEditor, json: Node)
    ensures fresh(editor) && editor.Valid() && editor.Snap() == AfterAll(commands)
    ensures json == PrintDoc(AfterAll(commands).lines)
    ensures DocRoundTrip.SameShape(LinesFromDoc(json), editor.lines) <==> AllPlain(editor.lines)
  {
    hide PrintDoc, LinesFromDoc, DocRoundTrip.SameShape, Step, Content, StyledFrom, Starts, AllMarksInside;
    editor := new CanvasEditor();
    assert commands[..0] == [];
    for i := 0 to |commands|
      invariant fresh(editor) && editor.Valid() && editor.Snap() == AfterAll(commands[..i])
    {
      AfterSnoc(commands, i);
      editor.Execute(commands[i]);
    }
    assert commands[..|commands|] == commands;
    json := editor.DocJson();
    ShapeOfPrint(editor.lines);
  }

  lemma AfterSnoc(commands: seq<Command>, i: nat)
    requires i < |commands|
    ensures AfterAll(commands[..i + 1]) == Step(AfterAll(commands[..i]), commands[i])
  {
    hide Step;
    assert commands[..i + 1][..i] == commands[..i];
  }

  lemma ShapeOfPrint(lines: Lines)
    requires lines != []
    ensures DocRoundTrip.SameShape(LinesFromDoc(PrintDoc(lines)), lines) <==> AllPlain(lines)
  {
    hide PrintDoc, LinesFromDoc, DocRoundTrip.SameShape;
    DocRoundTrip.ShapeSurvivesExactly(lines);
  }

  // ---- Lemmas the edits use ----

  lemma PrefixGrows(lines: Lines, ix: nat)
    requires ix < |lines|
    ensures Content(lines[..ix + 1]) == (if ix == 0 then "" else Content(lines[..ix]) + "\n") + lines[ix].text
    ensures LineStart(lines, ix) == |if ix == 0 then "" else Content(lines[..ix]) + "\n"|
  {
    BeforeLength(lines, ix);
    assert lines[..ix + 1] == lines[..ix] + [lines[ix]];
    OneLineContent(lines[ix]);
    if ix > 0 {
      ContentAppend(lines[..ix], [lines[ix]]);
    }
  }

  lemma StyledStep(lines: Lines, ix: nat, done: seq<StyledMark>)
    requires ix < |lines|
    ensures done + StyledFrom(lines, ix)
         == done + StyledMarksOf(lines[ix], LineStart(lines, ix)) + StyledFrom(lines, ix + 1)
  {
    hide StyledMarksOf, LineStart;
    Associative(done, StyledMarksOf(lines[ix], LineStart(lines, ix)), StyledFrom(lines, ix + 1));
  }

  lemma NoContent(lines: Lines)
    ensures Content(lines[..0]) == "" && StyledFrom(lines, |lines|) == []
  {
  }

  /** Marks of one line in content offsets, and the whole of a code block as code. */
  method StyledMarksLoop(line: EditorLine, base: nat) returns (styled: seq<StyledMark>)
    ensures styled == StyledMarksOf(line, base)
  {
    styled := [];
    for i := 0 to |line.marks|
      invariant |styled| == i && forall k :: 0 <= k < i ==> styled[k] == StyledOf(line.marks[k], base)
    {
      styled := styled + [StyledOf(line.marks[i], base)];
    }
    if line.block == CodeBlock && line.text != "" {
      styled := styled + [StyledMark(base, base + |line.text|, false, false, false, true, false)];
    }
  }

  lemma NoLinesLeft(lines: Lines, ix: nat)
    requires ix <= |lines|
    ensures lines == lines[..ix] + NonImages(lines[ix..ix]) + lines[ix..]
    ensures !HasImage(lines[ix..ix])
  {
  }

  /** One line further up: it stays, or is taken out of what is left. */
  lemma RemovalStep(lines: Lines, ix: nat, end: nat, left: Lines)
    requires ix < end <= |lines| && left == lines[..ix + 1] + NonImages(lines[ix + 1..end]) + lines[end..]
    ensures HasImage(lines[ix..end]) <==> lines[ix].block == Image || HasImage(lines[ix + 1..end])
    ensures lines[..ix] + NonImages(lines[ix..end]) + lines[end..]
         == if lines[ix].block == Image then left[..ix] + left[ix + 1..] else left
  {
    var rest := lines[ix + 1..end];
    assert lines[ix..end] == [lines[ix]] + rest;
    assert lines[..ix + 1] == lines[..ix] + [lines[ix]];
    NonImagesCons(lines[ix], rest);
    hide NonImages, HasImage;
    TakeOut(lines[..ix], lines[ix], NonImages(rest), lines[end..]);
  }

  /** Image lines of sl..=el, last first. */
  method DropImages(lines: Lines, sl: nat, el: nat) returns (left: Lines, removed: bool)
    requires sl <= el < |lines|
    ensures left == Splice(lines, sl, el + 1, NonImages(lines[sl..el + 1]))
    ensures removed <==> HasImage(lines[sl..el + 1])
  {
    removed := false;
    left := lines;
    var ix := el + 1;
    NoLinesLeft(lines, ix);
    hide HasImage, NonImages;
    while ix > sl
      invariant sl <= ix <= el + 1
      invariant left == lines[..ix] + NonImages(lines[ix..el + 1]) + lines[el + 1..]
      invariant removed <==> HasImage(lines[ix..el + 1])
    {
      ix := ix - 1;
      RemovalStep(lines, ix, el + 1, left);
      if lines[ix].block == Image {
        left := left[..ix] + left[ix + 1..];
        removed := true;
      }
    }
  }

  lemma NonImagesCons(line: EditorLine, rest: Lines)
    ensures NonImages([line] + rest) == (if line.block == Image then [] else [line]) + NonImages(rest)
    ensures HasImage([line] + rest) <==> line.block == Image || HasImage(rest)
  {
    assert ([line] + rest)[1..] == rest;
  }

  lemma TakeOut(x: Lines, line: EditorLine, y: Lines, z: Lines)
    ensures var all := x + [line] + y + z;
            all[..|x|] + all[|x| + 1..] == x + ([] + y) + z && all == x + ([line] + y) + z
  {
  }

  lemma FirstLineStart(lines: Lines)
    requires lines != []
    ensures LineStart(lines, 0) == 0
  {
  }

  lemma SameStart(a: Lines, b: Lines, ix: nat)
    requires ix < |a| && ix < |b| && a[..ix] == b[..ix]
    ensures LineStart(a, ix) == LineStart(b, ix)
  {
    LineStartLocal(a, b, ix);
  }

  lemma NextStart(lines: Lines, ix: nat)
    requires ix + 1 < |lines|
    ensures LineStart(lines, ix + 1) == LineStart(lines, ix) + |lines[ix].text| + 1
  {
  }
}
