/** The flat view of a list of lines, and what each edit does to the list. */
module EditorLines {
  import opened Basics
  import opened TipTap

  type Lines = seq<EditorLine>

  // ---- The flat view ----

  /** The lines joined by newlines. */
  function Content(lines: Lines): string {
    if lines == [] then ""
    else if |lines| == 1 then lines[0].text
    else lines[0].text + "\n" + Content(lines[1..])
  }

  /** Offset of line i: the earlier lengths plus one separator each. */
  function LineStart(lines: Lines, i: nat): nat
    requires i < |lines|
  {
    if i == 0 then 0 else LineStart(lines, i - 1) + |lines[i - 1].text| + 1
  }

  function Before(lines: Lines, i: nat): string
    requires i <= |lines|
  {
    if i == 0 then "" else Content(lines[..i]) + "\n"
  }

  function After(lines: Lines, j: nat): string
    requires j <= |lines|
  {
    if j == |lines| then "" else "\n" + Content(lines[j..])
  }

  function Splice(lines: Lines, i: nat, j: nat, mid: Lines): Lines
    requires i <= j <= |lines|
  {
    lines[..i] + mid + lines[j..]
  }

  lemma {:induction false} ContentAppend(a: Lines, b: Lines)
    requires a != [] && b != []
    ensures Content(a + b) == Content(a) + ("\n" + Content(b))
  {
    if |a| == 1 {
      assert (a + b)[1..] == b;
    } else {
      assert (a + b)[1..] == a[1..] + b;
      ContentAppend(a[1..], b);
    }
  }

  lemma SpliceContent(lines: Lines, i: nat, j: nat, mid: Lines)
    requires i <= j <= |lines| && mid != []
    ensures Content(Splice(lines, i, j, mid)) == Before(lines, i) + Content(mid) + After(lines, j)
  {
    hide Content;
    var left, right := lines[..i], lines[j..];
    if i > 0 {
      ContentAppend(left, mid + right);
      assert Splice(lines, i, j, mid) == left + (mid + right);
    } else {
      assert Splice(lines, i, j, mid) == mid + right;
    }
    if j < |lines| {
      ContentAppend(mid, right);
    } else {
      assert mid + right == mid;
    }
  }

  lemma ContentParts(lines: Lines, i: nat, j: nat)
    requires i < j <= |lines|
    ensures Content(lines) == Before(lines, i) + Content(lines[i..j]) + After(lines, j)
  {
    hide Content, Before, After;
    SpliceContent(lines, i, j, lines[i..j]);
    assert Splice(lines, i, j, lines[i..j]) == lines;
  }

  lemma {:induction false} BeforeLength(lines: Lines, i: nat)
    requires i < |lines|
    ensures |Before(lines, i)| == LineStart(lines, i)
  {
    if i > 0 {
      BeforeLength(lines, i - 1);
      assert lines[..i] == lines[..i - 1] + [lines[i - 1]];
      if i > 1 {
        ContentAppend(lines[..i - 1], [lines[i - 1]]);
      }
    }
  }

  lemma LineInContent(lines: Lines, i: nat)
    requires i < |lines|
    ensures Content(lines) == Before(lines, i) + lines[i].text + After(lines, i + 1)
    ensures |Before(lines, i)| == LineStart(lines, i)
    ensures LineStart(lines, i) + |lines[i].text| <= |Content(lines)|
    ensures i == |lines| - 1 ==> LineStart(lines, i) + |lines[i].text| == |Content(lines)|
  {
    ContentParts(lines, i, i + 1);
    assert lines[i..i + 1] == [lines[i]];
    BeforeLength(lines, i);
  }

  lemma {:induction false} LineStartLocal(a: Lines, b: Lines, i: nat)
    requires i < |a| && i < |b| && a[..i] == b[..i]
    ensures LineStart(a, i) == LineStart(b, i)
  {
    if i > 0 {
      assert a[i - 1] == a[..i][i - 1] == b[i - 1];
      assert a[..i - 1] == a[..i][..i - 1] == b[..i - 1];
      LineStartLocal(a, b, i - 1);
    }
  }

  // ---- Offsets and positions ----

  function LocateFrom(lines: Lines, offset: nat, ix: nat): (r: nat)
    requires ix < |lines|
    ensures r <= ix && LineStart(lines, r) <= offset
    ensures r < ix ==> offset < LineStart(lines, r + 1)
  {
    if ix == 0 || LineStart(lines, ix) <= offset then ix else LocateFrom(lines, offset, ix - 1)
  }

  /** Line that holds an offset: the last one that starts at or before it. */
  function Locate(lines: Lines, offset: nat): (r: nat)
    requires lines != []
    ensures r < |lines| && LineStart(lines, r) <= offset
    ensures r + 1 < |lines| ==> offset < LineStart(lines, r + 1)
  {
    LocateFrom(lines, offset, |lines| - 1)
  }

  function Column(lines: Lines, offset: nat): nat
    requires lines != []
  {
    var ix := Locate(lines, offset);
    Min(Max(offset - LineStart(lines, ix), 0), |lines[ix].text|)
  }

  function LineColToOffset(lines: Lines, line: nat, col: nat): nat
    requires lines != []
  {
    var ix := Min(line, |lines| - 1);
    LineStart(lines, ix) + Min(col, |lines[ix].text|)
  }

  /** An offset inside the content lies on its line, and the column is its distance from the start. */
  lemma LocateExact(lines: Lines, offset: nat)
    requires lines != [] && offset <= |Content(lines)|
    ensures var ix := Locate(lines, offset);
            LineStart(lines, ix) <= offset <= LineStart(lines, ix) + |lines[ix].text|
    ensures Column(lines, offset) == offset - LineStart(lines, Locate(lines, offset))
  {
    var ix := Locate(lines, offset);
    LineInContent(lines, ix);
  }

  /** Offset to position and back. */
  lemma OffsetRoundTrip(lines: Lines, offset: nat)
    requires lines != [] && offset <= |Content(lines)|
    ensures LineColToOffset(lines, Locate(lines, offset), Column(lines, offset)) == offset
  {
    LocateExact(lines, offset);
  }

  lemma {:induction false} LineStartGrows(lines: Lines, i: nat, j: nat)
    requires i < j < |lines|
    ensures LineStart(lines, i) + |lines[i].text| < LineStart(lines, j)
    decreases j
  {
    if i < j - 1 {
      LineStartGrows(lines, i, j - 1);
    }
  }

  /** Position to offset and back. */
  lemma PositionRoundTrip(lines: Lines, line: nat, col: nat)
    requires line < |lines| && col <= |lines[line].text|
    ensures var offset := LineColToOffset(lines, line, col);
            offset <= |Content(lines)| && Locate(lines, offset) == line && Column(lines, offset) == col
  {
    hide Content, LineStart, Locate;
    LineInContent(lines, line);
    var offset := LineStart(lines, line) + col;
    var ix := Locate(lines, offset);
    if ix < line {
      assert offset < LineStart(lines, ix + 1);
      if ix + 1 < line {
        LineStartGrows(lines, ix + 1, line);
      }
    } else if line < ix {
      LineStartGrows(lines, line, ix);
    }
  }

  lemma LocateMonotone(lines: Lines, a: nat, b: nat)
    requires lines != [] && a <= b
    ensures Locate(lines, a) <= Locate(lines, b)
  {
    var i, j := Locate(lines, a), Locate(lines, b);
    if j < i {
      if j + 1 < i {
        LineStartGrows(lines, j + 1, i);
      }
    }
  }

  /** Two positions on ordered lines cut the content where the texts are cut. */
  lemma ContentCut(lines: Lines, i: nat, a: nat)
    requires i < |lines| && a <= |lines[i].text|
    ensures LineStart(lines, i) + a <= |Content(lines)|
    ensures Content(lines)[..LineStart(lines, i) + a] == Before(lines, i) + lines[i].text[..a]
    ensures Content(lines)[LineStart(lines, i) + a..] == lines[i].text[a..] + After(lines, i + 1)
  {
    hide Content, Before, After;
    LineInContent(lines, i);
    CutMiddle(Before(lines, i), lines[i].text, After(lines, i + 1), a);
  }

  lemma CutMiddle(x: string, y: string, z: string, a: nat)
    requires a <= |y|
    ensures (x + y + z)[..|x| + a] == x + y[..a]
    ensures (x + y + z)[|x| + a..] == y[a..] + z
  {
  }

  // ---- Marks ----

  predicate AllMarksInside(lines: Lines) {
    forall l :: l in lines ==> MarksInside(l)
  }

  lemma SpliceMarks(lines: Lines, i: nat, j: nat, mid: Lines)
    requires i <= j <= |lines| && AllMarksInside(lines) && AllMarksInside(mid)
    ensures AllMarksInside(Splice(lines, i, j, mid))
  {
    hide MarksInside;
  }

  function MarksUpTo(marks: seq<EditorMark>, col: nat): seq<EditorMark> {
    if marks == [] then []
    else (if marks[0].end <= col then [marks[0]] else []) + MarksUpTo(marks[1..], col)
  }

  function Moved(m: EditorMark, delta: int): EditorMark
    requires m.start + delta >= 0 && m.end + delta >= 0
  {
    m.(start := m.start + delta, end := m.end + delta)
  }

  /** One mark after text[start..end] became inserted characters: kept, moved, or dropped. */
  function ShiftMark(m: EditorMark, start: nat, end: nat, inserted: nat): seq<EditorMark>
    requires start <= end && m.start <= m.end
  {
    if m.end <= start then [m]
    else if m.start >= end then [Moved(m, inserted - (end - start))]
    else []
  }

  function ShiftMarks(marks: seq<EditorMark>, start: nat, end: nat, inserted: nat): seq<EditorMark>
    requires start <= end && forall m :: m in marks ==> m.start <= m.end
  {
    if marks == [] then []
    else ShiftMark(marks[0], start, end, inserted) + ShiftMarks(marks[1..], start, end, inserted)
  }

  method ShiftMarksLoop(marks: seq<EditorMark>, start: nat, end: nat, inserted: nat) returns (next: seq<EditorMark>)
    requires start <= end && forall m :: m in marks ==> m.start <= m.end
    ensures next == ShiftMarks(marks, start, end, inserted)
  {
    hide ShiftMarks;
    var delta := inserted - (end - start);
    next := [];
    assert marks[0..] == marks;
    for i := 0 to |marks|
      invariant next + ShiftMarks(marks[i..], start, end, inserted) == ShiftMarks(marks, start, end, inserted)
    {
      ShiftMarksStep(marks, i, start, end, inserted);
      var mark := marks[i];
      if mark.end <= start {
        next := next + [mark];
      } else if mark.start >= end {
        next := next + [mark.(start := mark.start + delta, end := mark.end + delta)];
      }
    }
    assert marks[|marks|..] == [] && ShiftMarks([], start, end, inserted) == [] by { NoShiftedMarks(start, end, inserted); }
    assert next + [] == next;
  }

  lemma ShiftMarksStep(marks: seq<EditorMark>, i: nat, start: nat, end: nat, inserted: nat)
    requires i < |marks| && start <= end && forall m :: m in marks ==> m.start <= m.end
    ensures ShiftMarks(marks[i..], start, end, inserted)
         == ShiftMark(marks[i], start, end, inserted) + ShiftMarks(marks[i + 1..], start, end, inserted)
  {
    assert marks[i..][1..] == marks[i + 1..];
  }

  lemma NoShiftedMarks(start: nat, end: nat, inserted: nat)
    requires start <= end
    ensures ShiftMarks([], start, end, inserted) == []
  {
  }

  function ReplaceIn(text: string, start: nat, end: nat, inserted: string): string
    requires start <= end <= |text|
  {
    text[..start] + inserted + text[end..]
  }

  /** m lies inside text and covers the characters some mark of the same kind covered before. */
  predicate KeepsText(before: string, marks: seq<EditorMark>, text: string, m: EditorMark) {
    m.start <= m.end <= |text| &&
    exists was :: was in marks && was.kind == m.kind && was.href == m.href && was.start <= was.end <= |before|
                   && before[was.start..was.end] == text[m.start..m.end]
  }

  /** Every mark that survives a replacement is inside the new text and covers what it covered. */
  lemma {:induction false} ShiftedMarksKeepText(text: string, marks: seq<EditorMark>, all: seq<EditorMark>,
                                                start: nat, end: nat, inserted: string)
    requires start <= end <= |text| && forall m :: m in marks ==> m in all && m.start <= m.end <= |text|
    ensures forall m :: m in ShiftMarks(marks, start, end, |inserted|)
                        ==> KeepsText(text, all, ReplaceIn(text, start, end, inserted), m)
  {
    if marks != [] {
      var m, next := marks[0], ReplaceIn(text, start, end, inserted);
      ShiftedMarksKeepText(text, marks[1..], all, start, end, inserted);
      if m.end <= start {
        assert next[m.start..m.end] == text[m.start..m.end];
        assert KeepsText(text, all, next, m);
      } else if m.start >= end {
        var m' := Moved(m, |inserted| - (end - start));
        assert next[m'.start..m'.end] == text[m.start..m.end];
        assert KeepsText(text, all, next, m');
      }
    }
  }

  lemma {:induction false} MarksUpToInside(marks: seq<EditorMark>, col: nat)
    ensures forall m :: m in MarksUpTo(marks, col) <==> m in marks && m.end <= col
  {
    if marks != [] {
      MarksUpToInside(marks[1..], col);
    }
  }

  // ---- Replacing a range ----

  function ReplacedLine(lines: Lines, sl: nat, sc: nat, el: nat, ec: nat, inserted: string): EditorLine
    requires sl <= el < |lines| && sc <= |lines[sl].text| && ec <= |lines[el].text| && (sl == el ==> sc <= ec)
    requires AllMarksInside(lines)
  {
    lines[sl].(
    text := lines[sl].text[..sc] + inserted + lines[el].text[ec..],
    marks := assert lines[sl] in lines;
             if sl == el then ShiftMarks(lines[sl].marks, sc, ec, |inserted|) else MarksUpTo(lines[sl].marks, sc))
  }

  function ReplaceLines(lines: Lines, sl: nat, sc: nat, el: nat, ec: nat, inserted: string): Lines
    requires sl <= el < |lines| && sc <= |lines[sl].text| && ec <= |lines[el].text| && (sl == el ==> sc <= ec)
    requires AllMarksInside(lines)
  {
    Splice(lines, sl, el + 1, [ReplacedLine(lines, sl, sc, el, ec, inserted)])
  }

  lemma ReplaceLinesContent(lines: Lines, sl: nat, sc: nat, el: nat, ec: nat, inserted: string)
    requires sl <= el < |lines| && sc <= |lines[sl].text| && ec <= |lines[el].text| && (sl == el ==> sc <= ec)
    requires AllMarksInside(lines)
    ensures LineStart(lines, sl) + sc <= |Content(lines)| && LineStart(lines, el) + ec <= |Content(lines)|
    ensures Content(ReplaceLines(lines, sl, sc, el, ec, inserted))
         == Content(lines)[..LineStart(lines, sl) + sc] + inserted + Content(lines)[LineStart(lines, el) + ec..]
  {
    hide *;
    var line := ReplacedLine(lines, sl, sc, el, ec, inserted);
    ContentCut(lines, sl, sc);
    ContentCut(lines, el, ec);
    SpliceContent(lines, sl, el + 1, [line]);
    OneLineContent(line);
    ReplacedIs(lines, sl, sc, el, ec, inserted);
  }

  lemma ReplacedIs(lines: Lines, sl: nat, sc: nat, el: nat, ec: nat, inserted: string)
    requires sl <= el < |lines| && sc <= |lines[sl].text| && ec <= |lines[el].text| && (sl == el ==> sc <= ec)
    requires AllMarksInside(lines)
    ensures var line := ReplacedLine(lines, sl, sc, el, ec, inserted);
            && line.text == lines[sl].text[..sc] + inserted + lines[el].text[ec..]
            && ReplaceLines(lines, sl, sc, el, ec, inserted) == Splice(lines, sl, el + 1, [line])
  {
    hide ShiftMarks, MarksUpTo;
  }

  lemma OneLineContent(line: EditorLine)
    ensures Content([line]) == line.text
  {
  }

  lemma ReplaceLinesMarks(lines: Lines, sl: nat, sc: nat, el: nat, ec: nat, inserted: string)
    requires sl <= el < |lines| && sc <= |lines[sl].text| && ec <= |lines[el].text| && (sl == el ==> sc <= ec)
    requires AllMarksInside(lines)
    ensures AllMarksInside(ReplaceLines(lines, sl, sc, el, ec, inserted))
    ensures sl == el ==>
              var before, line := lines[sl], ReplacedLine(lines, sl, sc, el, ec, inserted);
              forall m :: m in line.marks ==> KeepsText(before.text, before.marks, line.text, m)
  {
    hide ShiftMarks, MarksUpTo, KeepsText, Splice;
    var was, line := lines[sl], ReplacedLine(lines, sl, sc, el, ec, inserted);
    assert was in lines;
    if sl == el {
      ShiftedMarksKeepText(was.text, was.marks, was.marks, sc, ec, inserted);
      assert line.text == ReplaceIn(was.text, sc, ec, inserted);
      assert MarksInside(line) by { KeptIsInside(was.text, was.marks, line); }
    } else {
      MarksUpToInside(was.marks, sc);
    }
    SpliceMarks(lines, sl, el + 1, [line]);
  }

  lemma KeptIsInside(before: string, marks: seq<EditorMark>, line: EditorLine)
    requires forall m :: m in line.marks ==> KeepsText(before, marks, line.text, m)
    ensures MarksInside(line)
  {
  }

  // ---- Removing images ----

  function NonImages(lines: Lines): Lines {
    if lines == [] then []
    else (if lines[0].block == Image then [] else [lines[0]]) + NonImages(lines[1..])
  }

  lemma {:induction false} NonImagesMembers(lines: Lines)
    ensures forall l :: l in NonImages(lines) <==> l in lines && l.block != Image
  {
    if lines != [] {
      NonImagesMembers(lines[1..]);
    }
  }

  predicate HasImage(lines: Lines) {
    exists l :: l in lines && l.block == Image
  }

  function OrDefault(lines: Lines): (r: Lines)
    ensures r != []
  {
    if lines == [] then [DEFAULT_LINE] else lines
  }

  function WithoutImages(lines: Lines, sl: nat, el: nat): Lines
    requires sl <= el < |lines|
  {
    OrDefault(Splice(lines, sl, el + 1, NonImages(lines[sl..el + 1])))
  }

  function LineRemoved(lines: Lines, ix: nat): Lines
    requires ix < |lines|
  {
    OrDefault(lines[..ix] + lines[ix + 1..])
  }

  function StartOr0(lines: Lines, i: nat): nat {
    if i < |lines| then LineStart(lines, i) else 0
  }

  // ---- The same by offsets ----

  /** Some line from that of start to that of end is an image. */
  predicate ImageBetween(lines: Lines, start: nat, end: nat)
    requires lines != [] && start <= end
  {
    LocateMonotone(lines, start, end);
    HasImage(lines[Locate(lines, start)..Locate(lines, end) + 1])
  }

  function WithoutImagesBetween(lines: Lines, start: nat, end: nat): (r: Lines)
    requires lines != [] && start <= end
    ensures r != []
  {
    LocateMonotone(lines, start, end);
    WithoutImages(lines, Locate(lines, start), Locate(lines, end))
  }

  function ReplaceBetween(lines: Lines, start: nat, end: nat, inserted: string): Lines
    requires lines != [] && AllMarksInside(lines) && start <= end <= |Content(lines)|
  {
    LocateMonotone(lines, start, end);
    LocateExact(lines, start);
    LocateExact(lines, end);
    ReplaceLines(lines, Locate(lines, start), Column(lines, start), Locate(lines, end), Column(lines, end), inserted)
  }

  // ---- Splitting and joining ----

  predicate IsListBlock(block: BlockKind) {
    block.BulletItem? || block.OrderedItem? || block.TaskItem?
  }

  predicate ListBlocksSame(a: BlockKind, b: BlockKind) {
    (a.BulletItem? && b.BulletItem?) || (a.OrderedItem? && b.OrderedItem?) || (a.TaskItem? && b.TaskItem?)
  }

  /** Marks of the text after col, moved to its start; a mark across col keeps its later part. */
  function TailMarks(marks: seq<EditorMark>, col: nat): seq<EditorMark> {
    if marks == [] then []
    else
      var m := marks[0];
      (if m.start >= col && m.end >= col then [m.(start := m.start - col, end := m.end - col)]
       else if m.end > col then [m.(start := 0, end := m.end - col)]
       else []) + TailMarks(marks[1..], col)
  }

  lemma {:induction false} TailMarksInside(marks: seq<EditorMark>, col: nat, len: nat)
    requires col <= len && forall m :: m in marks ==> m.start <= m.end <= len
    ensures forall m :: m in TailMarks(marks, col) ==> m.start <= m.end <= len - col
  {
    if marks != [] {
      TailMarksInside(marks[1..], col, len);
    }
  }

  function BlockAfterSplit(block: BlockKind): BlockKind {
    if block.TaskItem? then TaskItem(false) else block
  }

  /** The two lines a text line splits into. */
  function SplitLine(line: EditorLine, col: nat): Lines
    requires col <= |line.text|
  {
    [line.(text := line.text[..col], marks := MarksUpTo(line.marks, col)),
     EditorLine(BlockAfterSplit(line.block), line.text[col..], TailMarks(line.marks, col), None, None)]
  }

  function AsParagraph(line: EditorLine): EditorLine {
    line.(block := Paragraph, orderedStart := None)
  }

  /** Enter at column col of line ix. */
  function SplitLines(lines: Lines, ix: nat, col: nat): Lines
    requires ix < |lines| && col <= |lines[ix].text|
  {
    var line := lines[ix];
    if line.block == Image then Splice(lines, ix + 1, ix + 1, [DEFAULT_LINE])
    else if IsListBlock(line.block) && line.text == "" then Splice(lines, ix, ix + 1, [AsParagraph(line)])
    else if line.block == CodeBlock then
      Splice(lines, ix, ix + 1,
             [line.(text := line.text[..col] + "\n" + line.text[col..], marks := MarksUpTo(line.marks, col))])
    else Splice(lines, ix, ix + 1, SplitLine(line, col))
  }

  lemma SplitLinesMarks(lines: Lines, ix: nat, col: nat)
    requires ix < |lines| && col <= |lines[ix].text| && AllMarksInside(lines)
    ensures AllMarksInside(SplitLines(lines, ix, col))
  {
    var line := lines[ix];
    assert line in lines;
    MarksUpToInside(line.marks, col);
    TailMarksInside(line.marks, col, |line.text|);
  }

  /** A newline inside the text of line ix is one inserted newline, however the marks change. */
  lemma BreakContent(lines: Lines, ix: nat, col: nat, broken: EditorLine)
    requires ix < |lines| && col <= |lines[ix].text|
    requires broken.text == lines[ix].text[..col] + "\n" + lines[ix].text[col..]
    ensures LineStart(lines, ix) + col <= |Content(lines)|
    ensures Content(Splice(lines, ix, ix + 1, [broken]))
         == Content(lines)[..LineStart(lines, ix) + col] + "\n" + Content(lines)[LineStart(lines, ix) + col..]
  {
    hide Before, After, LineStart, Splice;
    ContentCut(lines, ix, col);
    SpliceContent(lines, ix, ix + 1, [broken]);
    OneLineContent(broken);
  }

  lemma TwoLinesContent(a: EditorLine, b: EditorLine)
    ensures Content([a, b]) == a.text + "\n" + b.text
  {
    assert [a, b][1..] == [b];
    OneLineContent(b);
  }

  /** Off images and empty list items, Enter inserts exactly one newline at the caret. */
  lemma SplitLinesContent(lines: Lines, ix: nat, col: nat)
    requires ix < |lines| && col <= |lines[ix].text|
    requires lines[ix].block != Image && !(IsListBlock(lines[ix].block) && lines[ix].text == "")
    ensures LineStart(lines, ix) + col <= |Content(lines)|
    ensures Content(SplitLines(lines, ix, col))
         == Content(lines)[..LineStart(lines, ix) + col] + "\n" + Content(lines)[LineStart(lines, ix) + col..]
  {
    hide Before, After, MarksUpTo, TailMarks, LineStart, Content, Splice;
    var line := lines[ix];
    if line.block == CodeBlock {
      BreakContent(lines, ix, col,
                   line.(text := line.text[..col] + "\n" + line.text[col..], marks := MarksUpTo(line.marks, col)));
    } else {
      ContentCut(lines, ix, col);
      var two := SplitLine(line, col);
      SpliceContent(lines, ix, ix + 1, two);
      TwoLinesContent(two[0], two[1]);
    }
  }

  function BreakInLine(line: EditorLine, col: nat): EditorLine
    requires col <= |line.text| && MarksInside(line)
  {
    line.(text := line.text[..col] + "\n" + line.text[col..], marks := ShiftMarks(line.marks, col, col, 1))
  }

  /** A mark list moved right by a joined text. */
  function Appended(marks: seq<EditorMark>, delta: nat): (r: seq<EditorMark>)
    ensures |r| == |marks|
    ensures forall i :: 0 <= i < |r| ==> r[i] == Moved(marks[i], delta)
  {
    if marks == [] then [] else [Moved(marks[0], delta)] + Appended(marks[1..], delta)
  }

  function Joined(prev: EditorLine, tail: EditorLine): EditorLine {
    prev.(text := prev.text + tail.text, marks := prev.marks + Appended(tail.marks, |prev.text|))
  }

  function JoinLines(lines: Lines, ix: nat): Lines
    requires 0 < ix < |lines|
  {
    Splice(lines, ix - 1, ix + 1, [Joined(lines[ix - 1], lines[ix])])
  }

  /** Backspace at the start of list line ix: an empty item goes, an item after another kind becomes
      a paragraph, any other joins the item above. */
  function ListLineBackspaced(lines: Lines, ix: nat): Lines
    requires ix < |lines|
  {
    if lines[ix].text == "" && ix > 0 then lines[..ix] + lines[ix + 1..]
    else if ix == 0 || !ListBlocksSame(lines[ix - 1].block, lines[ix].block) then lines[ix := AsParagraph(lines[ix])]
    else JoinLines(lines, ix)
  }

  lemma JoinLinesMarks(lines: Lines, ix: nat)
    requires 0 < ix < |lines| && AllMarksInside(lines)
    ensures AllMarksInside(JoinLines(lines, ix))
  {
    hide Appended;
    assert lines[ix - 1] in lines && lines[ix] in lines;
    assert MarksInside(Joined(lines[ix - 1], lines[ix]));
  }

  /** Joining removes exactly the separator before line ix. */
  lemma JoinLinesContent(lines: Lines, ix: nat)
    requires 0 < ix < |lines|
    ensures 0 < LineStart(lines, ix) <= |Content(lines)|
    ensures Content(JoinLines(lines, ix))
         == Content(lines)[..LineStart(lines, ix) - 1] + Content(lines)[LineStart(lines, ix)..]
  {
    hide *;
    ContentUpTo(lines, ix - 1);
    ContentFrom(lines, ix);
    LineStartStep(lines, ix);
    JoinedIs(lines, ix);
    var prev, own := lines[ix - 1].text, lines[ix].text;
    SpliceContent(lines, ix - 1, ix + 1, [Joined(lines[ix - 1], lines[ix])]);
    OneLineContent(Joined(lines[ix - 1], lines[ix]));
    FourParts(Before(lines, ix - 1), prev, own, After(lines, ix + 1));
  }

  lemma FourParts(a: string, b: string, c: string, d: string)
    ensures a + (b + c) + d == a + b + (c + d)
  {
  }

  lemma ContentUpTo(lines: Lines, i: nat)
    requires i < |lines|
    ensures var end := LineStart(lines, i) + |lines[i].text|;
            end <= |Content(lines)| && Content(lines)[..end] == Before(lines, i) + lines[i].text
  {
    hide *;
    ContentCut(lines, i, |lines[i].text|);
    assert lines[i].text[..|lines[i].text|] == lines[i].text;
  }

  lemma ContentFrom(lines: Lines, i: nat)
    requires i < |lines|
    ensures var start := LineStart(lines, i);
            start <= |Content(lines)| && Content(lines)[start..] == lines[i].text + After(lines, i + 1)
  {
    hide *;
    ContentCut(lines, i, 0);
    assert lines[i].text[0..] == lines[i].text;
  }

  lemma JoinedIs(lines: Lines, ix: nat)
    requires 0 < ix < |lines|
    ensures var line := Joined(lines[ix - 1], lines[ix]);
            && line.text == lines[ix - 1].text + lines[ix].text
            && JoinLines(lines, ix) == Splice(lines, ix - 1, ix + 1, [line])
  {
    hide Appended;
  }

  lemma LineStartStep(lines: Lines, ix: nat)
    requires 0 < ix < |lines|
    ensures LineStart(lines, ix) == LineStart(lines, ix - 1) + |lines[ix - 1].text| + 1
  {
  }

  /** Joining right after a split that made two lines restores the content, and the texts of all lines. */
  lemma JoinAfterSplit(lines: Lines, ix: nat, col: nat)
    requires ix < |lines| && col <= |lines[ix].text|
    requires lines[ix].block !in {Image, CodeBlock} && !(IsListBlock(lines[ix].block) && lines[ix].text == "")
    ensures var back := JoinLines(SplitLines(lines, ix, col), ix + 1);
            && |back| == |lines| && Content(back) == Content(lines)
            && (forall i :: 0 <= i < |lines| ==> back[i].text == lines[i].text && back[i].block == lines[i].block)
  {
    hide MarksUpTo, TailMarks, Appended, Content;
    var split := SplitLines(lines, ix, col);
    var two := SplitLine(lines[ix], col);
    assert split[ix] == two[0] && split[ix + 1] == two[1];
    assert lines[ix].text[..col] + lines[ix].text[col..] == lines[ix].text;
    var back := JoinLines(split, ix + 1);
    assert back == Splice(lines, ix, ix + 1, [Joined(two[0], two[1])]);
    SameTexts(back, lines);
  }

  lemma {:induction false} SameTexts(a: Lines, b: Lines)
    requires |a| == |b| && forall i :: 0 <= i < |a| ==> a[i].text == b[i].text
    ensures Content(a) == Content(b)
  {
    if |a| > 1 {
      SameTexts(a[1..], b[1..]);
    }
  }

  // ---- Edits over a selection that keep every text ----

  function SelStart(ix: nat, sl: nat, sc: nat): nat {
    if ix == sl then sc else 0
  }

  function SelEnd(lines: Lines, ix: nat, el: nat, ec: nat): nat
    requires ix < |lines|
  {
    if ix == el then ec else |lines[ix].text|
  }

  /** Marks without those of kind that touch [start, end). */
  function Cleared(marks: seq<EditorMark>, kind: MarkKind, start: nat, end: nat): (r: seq<EditorMark>)
    ensures forall m :: m in r <==> m in marks && !(m.kind == kind && Overlaps(m, start, end))
  {
    if marks == [] then []
    else (if marks[0].kind == kind && Overlaps(marks[0], start, end) then [] else [marks[0]])
         + Cleared(marks[1..], kind, start, end)
  }

  /** One mark of kind covers all of [start, end). */
  predicate IsActive(marks: seq<EditorMark>, kind: MarkKind, start: nat, end: nat) {
    exists m :: m in marks && m.kind == kind && m.start <= start && m.end >= end
  }

  function ToggledLine(line: EditorLine, kind: MarkKind, start: nat, end: nat): EditorLine {
    var kept := Cleared(line.marks, kind, start, end);
    line.(marks := if IsActive(line.marks, kind, start, end) then kept
          else kept + [EditorMark(start, end, kind, if kind == Link then Some(LINK_DEFAULT) else None)])
  }

  predicate Covered(marks: seq<EditorMark>, kind: MarkKind, p: nat) {
    exists m :: m in marks && m.kind == kind && m.start <= p < m.end
  }

  /** Toggling flips the kind over the whole selection, leaves other kinds alone, and never adds
      the kind anywhere else. */
  lemma ToggleMeaning(line: EditorLine, kind: MarkKind, start: nat, end: nat, p: nat)
    requires start < end <= |line.text| && MarksInside(line)
    ensures var after := ToggledLine(line, kind, start, end);
            && MarksInside(after) && after.text == line.text && after.block == line.block
            && (start <= p < end ==> (Covered(after.marks, kind, p) <==> !IsActive(line.marks, kind, start, end)))
            && (!(start <= p < end) && Covered(after.marks, kind, p) ==> Covered(line.marks, kind, p))
            && (forall m: EditorMark :: m.kind != kind ==> (m in after.marks <==> m in line.marks))
  {
    var after := ToggledLine(line, kind, start, end);
    if start <= p < end && !IsActive(line.marks, kind, start, end) {
      var added := after.marks[|after.marks| - 1];
      assert added in after.marks;
    }
  }

  function LinkedLine(line: EditorLine, href: string, start: nat, end: nat): EditorLine {
    line.(marks := Cleared(line.marks, Link, start, end) + [EditorMark(start, end, Link, Some(href))])
  }

  datatype MarkEdit = Toggle(kind: MarkKind) | SetLink(href: string) | DropLink

  function EditMarks(edit: MarkEdit, line: EditorLine, start: nat, end: nat): EditorLine {
    match edit
    case Toggle(kind) => if start >= end then line else ToggledLine(line, kind, start, end)
    case SetLink(href) => if start >= end then line else LinkedLine(line, href, start, end)
    case DropLink => line.(marks := Cleared(line.marks, Link, start, end))
  }

  function OverSelection(edit: MarkEdit, lines: Lines, sl: nat, sc: nat, el: nat, ec: nat): (r: Lines)
    ensures |r| == |lines|
  {
    seq(|lines|, i requires 0 <= i < |lines| =>
      if sl <= i <= el then EditMarks(edit, lines[i], SelStart(i, sl, sc), SelEnd(lines, i, el, ec)) else lines[i])
  }

  lemma OverSelectionKeeps(edit: MarkEdit, lines: Lines, sl: nat, sc: nat, el: nat, ec: nat)
    requires sl <= el < |lines| && ec <= |lines[el].text| && AllMarksInside(lines)
    ensures var after := OverSelection(edit, lines, sl, sc, el, ec);
            AllMarksInside(after) && Content(after) == Content(lines)
            && forall i :: 0 <= i < |lines| ==> after[i].text == lines[i].text && after[i].block == lines[i].block
  {
    hide Content, MarksInside, EditMarks;
    var after := OverSelection(edit, lines, sl, sc, el, ec);
    forall i | 0 <= i < |lines|
      ensures MarksInside(after[i]) && after[i].text == lines[i].text && after[i].block == lines[i].block
    {
      assert lines[i] in lines;
      EditKeeps(edit, lines[i], SelStart(i, sl, sc), SelEnd(lines, i, el, ec));
    }
    SameTexts(after, lines);
  }

  lemma EditKeeps(edit: MarkEdit, line: EditorLine, start: nat, end: nat)
    requires MarksInside(line) && end <= |line.text|
    ensures var after := EditMarks(edit, line, start, end);
            MarksInside(after) && after.text == line.text && after.block == line.block
  {
  }

  function BlockSet(line: EditorLine, kind: BlockKind, newRun: bool): EditorLine {
    if line.block == Image then line
    else line.(
      block := if kind.TaskItem? then TaskItem(false) else kind,
      orderedStart := if kind == OrderedItem && !newRun then line.orderedStart else None)
  }

  predicate AllInList(lines: Lines, start: nat, end: nat, kind: BlockKind)
    requires end < |lines|
  {
    forall i :: start <= i <= end ==> lines[i].block != Image && ListBlocksSame(lines[i].block, kind)
  }

  /** Choosing a block kind: a list kind that all lines have already turns them into paragraphs. */
  function SetBlocks(lines: Lines, start: nat, end: nat, kind: BlockKind): (r: Lines)
    requires end < |lines|
    ensures |r| == |lines|
  {
    var lift := IsListBlock(kind) && AllInList(lines, start, end, kind);
    seq(|lines|, i requires 0 <= i < |lines| =>
      if !(start <= i <= end) then lines[i]
      else if lift then AsParagraph(lines[i])
      else BlockSet(lines[i], kind, i == 0 || lines[i - 1].block != OrderedItem))
  }

  predicate AllCode(lines: Lines, start: nat, end: nat)
    requires end < |lines|
  {
    forall i :: start <= i <= end ==> lines[i].block == CodeBlock
  }

  function ToggleCode(lines: Lines, start: nat, end: nat): (r: Lines)
    requires end < |lines|
    ensures |r| == |lines|
  {
    var kind := if AllCode(lines, start, end) then Paragraph else CodeBlock;
    seq(|lines|, i requires 0 <= i < |lines| =>
      if start <= i <= end && lines[i].block != Image then lines[i].(block := kind) else lines[i])
  }

  lemma SameTextsAndMarks(a: Lines, b: Lines)
    requires |a| == |b| && AllMarksInside(b)
    requires forall i :: 0 <= i < |a| ==> a[i].text == b[i].text && a[i].marks == b[i].marks
    ensures Content(a) == Content(b) && AllMarksInside(a)
  {
    hide Content;
    SameTexts(a, b);
    forall l | l in a
      ensures MarksInside(l)
    {
      var i :| 0 <= i < |a| && a[i] == l;
      assert b[i] in b;
    }
  }

  // ---- Inserting an image ----

  function TailLine(line: EditorLine, col: nat): EditorLine
    requires col <= |line.text|
  {
    EditorLine(line.block, line.text[col..], [], None, None)
  }

  function HeadLine(line: EditorLine, col: nat): EditorLine
    requires col <= |line.text|
  {
    line.(text := line.text[..col], marks := MarksUpTo(line.marks, col))
  }

  /** The lines with the image in place, and its index. */
  function PlaceImage(lines: Lines, ix: nat, col: nat, src: string): (r: (Lines, nat))
    requires ix < |lines| && col <= |lines[ix].text|
    ensures r.1 < |r.0| && r.0[r.1] == ImageLine(src)
  {
    var line, image := lines[ix], ImageLine(src);
    if line.block == Image then (Splice(lines, ix + 1, ix + 1, [image]), ix + 1)
    else if line.text == "" then (Splice(lines, ix, ix + 1, [image]), ix)
    else if col == 0 then (Splice(lines, ix, ix, [image]), ix)
    else if col >= |line.text| then (Splice(lines, ix + 1, ix + 1, [image]), ix + 1)
    else (Splice(lines, ix, ix + 1, [HeadLine(line, col), image, TailLine(line, col)]), ix + 1)
  }

  function WithTrailing(lines: Lines, imageIx: nat): (r: Lines)
    requires imageIx < |lines|
    ensures imageIx + 1 < |r|
  {
    if imageIx + 1 == |lines| || lines[imageIx + 1].block == Image
    then Splice(lines, imageIx + 1, imageIx + 1, [DEFAULT_LINE]) else lines
  }

  function InsertImage(lines: Lines, ix: nat, col: nat, src: string): (r: (Lines, nat))
    requires ix < |lines| && col <= |lines[ix].text|
    ensures r.1 + 1 < |r.0| && r.0[r.1] == ImageLine(src) && r.0[r.1 + 1].block != Image
  {
    var placed := PlaceImage(lines, ix, col, src);
    (WithTrailing(placed.0, placed.1), placed.1)
  }

  lemma PlaceImageMarks(lines: Lines, ix: nat, col: nat, src: string)
    requires ix < |lines| && col <= |lines[ix].text| && AllMarksInside(lines)
    ensures AllMarksInside(PlaceImage(lines, ix, col, src).0)
  {
    assert lines[ix] in lines;
    MarksUpToInside(lines[ix].marks, col);
  }

  /** All texts without separators. */
  function FlatText(lines: Lines): string {
    if lines == [] then "" else lines[0].text + FlatText(lines[1..])
  }

  lemma {:induction false} FlatTextAppend(a: Lines, b: Lines)
    ensures FlatText(a + b) == FlatText(a) + FlatText(b)
  {
    if a == [] {
      assert a + b == b;
    } else {
      assert (a + b)[1..] == a[1..] + b;
      FlatTextAppend(a[1..], b);
    }
  }

  lemma FlatTextSplice(lines: Lines, i: nat, j: nat, mid: Lines)
    requires i <= j <= |lines| && FlatText(mid) == FlatText(lines[i..j])
    ensures FlatText(Splice(lines, i, j, mid)) == FlatText(lines)
  {
    hide FlatText;
    FlatTextAppend(lines[..i] + mid, lines[j..]);
    FlatTextAppend(lines[..i], mid);
    FlatTextAppend(lines[..i] + lines[i..j], lines[j..]);
    FlatTextAppend(lines[..i], lines[i..j]);
    assert lines[..i] + lines[i..j] + lines[j..] == lines;
  }

  lemma FlatOne(line: EditorLine)
    ensures FlatText([line]) == line.text
  {
    assert [line][1..] == [];
    assert line.text + "" == line.text;
  }

  lemma FlatAround(a: EditorLine, image: EditorLine, b: EditorLine)
    requires image.text == ""
    ensures FlatText([a, image, b]) == a.text + b.text
  {
    FlatOne(b);
    assert [a, image, b][1..] == [image, b] && [image, b][1..] == [b];
  }

  /** Inserting an image adds that one image and never loses or moves a character. */
  lemma InsertImageKeepsText(lines: Lines, ix: nat, col: nat, src: string)
    requires ix < |lines| && col <= |lines[ix].text|
    ensures FlatText(InsertImage(lines, ix, col, src).0) == FlatText(lines)
  {
    hide FlatText, Splice;
    var line, image := lines[ix], ImageLine(src);
    var placed := PlaceImage(lines, ix, col, src);
    FlatOne(image);
    FlatOne(DEFAULT_LINE);
    FlatOne(line);
    FlatAround(HeadLine(line, col), image, TailLine(line, col));
    assert lines[ix..ix + 1] == [line] && lines[ix..ix] == [] && lines[ix + 1..ix + 1] == [];
    assert FlatText([]) == "" by { FlatNone(); }
    assert line.text[..col] + line.text[col..] == line.text;
    if line.block == Image || (line.text != "" && col >= |line.text|) {
      FlatTextSplice(lines, ix + 1, ix + 1, [image]);
    } else if line.text == "" {
      FlatTextSplice(lines, ix, ix + 1, [image]);
    } else if col == 0 {
      FlatTextSplice(lines, ix, ix, [image]);
    } else {
      FlatTextSplice(lines, ix, ix + 1, [HeadLine(line, col), image, TailLine(line, col)]);
    }
    var at := placed.1 + 1;
    assert placed.0[at..at] == [];
    FlatTextSplice(placed.0, at, at, [DEFAULT_LINE]);
  }

  lemma FlatNone()
    ensures FlatText([]) == ""
  {
  }

  // ---- What edits keep ----

  lemma NonImagesMarks(lines: Lines, sl: nat, el: nat)
    requires sl <= el < |lines| && AllMarksInside(lines)
    ensures AllMarksInside(Splice(lines, sl, el + 1, NonImages(lines[sl..el + 1])))
  {
    NonImagesMembers(lines[sl..el + 1]);
    assert AllMarksInside(NonImages(lines[sl..el + 1]));
    SpliceMarks(lines, sl, el + 1, NonImages(lines[sl..el + 1]));
  }

  lemma RemovalMarks(lines: Lines, ix: nat)
    requires ix < |lines| && AllMarksInside(lines)
    ensures AllMarksInside(lines[..ix] + lines[ix + 1..])
  {
    hide MarksInside;
  }

  lemma ReplaceLinesLonger(lines: Lines, sl: nat, sc: nat, el: nat, ec: nat, inserted: string)
    requires sl <= el < |lines| && sc <= |lines[sl].text| && ec <= |lines[el].text| && (sl == el ==> sc <= ec)
    requires AllMarksInside(lines)
    ensures ReplaceLines(lines, sl, sc, el, ec, inserted) != []
  {
    hide ReplacedLine;
  }

  lemma BreakMarks(lines: Lines, ix: nat, col: nat)
    requires ix < |lines| && col <= |lines[ix].text| && AllMarksInside(lines)
    ensures lines[ix] in lines && AllMarksInside(lines[ix := BreakInLine(lines[ix], col)])
  {
    hide ShiftMarks, KeepsText;
    var line := lines[ix];
    assert line in lines;
    var broken := BreakInLine(line, col);
    ShiftedMarksKeepText(line.text, line.marks, line.marks, col, col, "\n");
    KeptIsInside(line.text, line.marks, broken);
    SpliceMarks(lines, ix, ix + 1, [broken]);
    assert Splice(lines, ix, ix + 1, [broken]) == lines[ix := broken];
  }

  lemma TrailingMarks(lines: Lines, imageIx: nat)
    requires imageIx < |lines| && AllMarksInside(lines)
    ensures AllMarksInside(WithTrailing(lines, imageIx))
  {
    SpliceMarks(lines, imageIx + 1, imageIx + 1, [DEFAULT_LINE]);
  }

  lemma SetBlocksAt(lines: Lines, start: nat, end: nat, kind: BlockKind, i: nat)
    requires end < |lines| && i < |lines|
    ensures SetBlocks(lines, start, end, kind)[i] ==
            if !(start <= i <= end) then lines[i]
            else if IsListBlock(kind) && AllInList(lines, start, end, kind) then AsParagraph(lines[i])
            else BlockSet(lines[i], kind, i == 0 || lines[i - 1].block != OrderedItem)
  {
  }

  lemma SetBlocksKeeps(lines: Lines, start: nat, end: nat, kind: BlockKind)
    requires end < |lines|
    ensures forall i :: 0 <= i < |lines| ==>
              && SetBlocks(lines, start, end, kind)[i].text == lines[i].text
              && SetBlocks(lines, start, end, kind)[i].marks == lines[i].marks
  {
  }

  /** The first line of a range without images is not an image. */
  lemma StartInRange(lines: Lines, start: nat, end: nat)
    requires lines != [] && start <= end
    ensures var sl, el := Locate(lines, start), Locate(lines, end);
            sl <= el && (!ImageBetween(lines, start, end) ==> lines[sl].block != Image)
  {
    hide Locate;
    LocateMonotone(lines, start, end);
    var sl, el := Locate(lines, start), Locate(lines, end);
    assert lines[sl..el + 1][0] == lines[sl];
  }
}
