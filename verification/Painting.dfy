/** What the painter reads against the marks of the lines. */
module Painting {
  import opened Basics
  import opened TipTap
  import opened EditorLines
  import opened Editor

  predicate Shows(m: StyledMark, kind: MarkKind) {
    match kind
    case Bold => m.bold
    case Italic => m.italic
    case Strike => m.strike
    case Code => m.code
    case Link => m.link
  }

  /** Some styled mark shows the kind at an offset of the text. */
  ghost predicate Painted(styled: seq<StyledMark>, kind: MarkKind, offset: nat) {
    exists m :: m in styled && m.start <= offset < m.end && Shows(m, kind)
  }

  lemma {:induction false} PaintedFrom(lines: Lines, k: nat, kind: MarkKind, offset: nat)
    requires k <= |lines|
    ensures Painted(StyledFrom(lines, k), kind, offset) <==>
            exists j :: k <= j < |lines| && Painted(StyledMarksOf(lines[j], LineStart(lines, j)), kind, offset)
    decreases |lines| - k
  {
    hide StyledMarksOf, LineStart;
    if k < |lines| {
      PaintedFrom(lines, k + 1, kind, offset);
      var own, later := StyledMarksOf(lines[k], LineStart(lines, k)), StyledFrom(lines, k + 1);
      assert Painted(own + later, kind, offset) <==> Painted(own, kind, offset) || Painted(later, kind, offset) by {
        PaintedAppend(own, later, kind, offset);
      }
    }
  }

  lemma PaintedAppend(a: seq<StyledMark>, b: seq<StyledMark>, kind: MarkKind, offset: nat)
    ensures Painted(a + b, kind, offset) <==> Painted(a, kind, offset) || Painted(b, kind, offset)
  {
    forall m: StyledMark
      ensures m in a + b <==> m in a || m in b
    {
    }
  }

  /** Within its own line a character is painted as its marks say; another line does not paint it. */
  lemma PaintedInLine(line: EditorLine, base: nat, kind: MarkKind, offset: nat)
    requires MarksInside(line)
    ensures Painted(StyledMarksOf(line, base), kind, offset) <==>
            && base <= offset < base + |line.text|
            && (Covered(line.marks, kind, offset - base) || (kind == Code && line.block == CodeBlock))
  {
    var own := seq(|line.marks|, i requires 0 <= i < |line.marks| => StyledOf(line.marks[i], base));
    var code := if line.block == CodeBlock && line.text != ""
                then [StyledMark(base, base + |line.text|, false, false, false, true, false)] else [];
    assert StyledMarksOf(line, base) == own + code;
    PaintedAppend(own, code, kind, offset);
    OwnPainted(line, base, own, kind, offset);
    assert Painted(code, kind, offset) <==> kind == Code && line.block == CodeBlock && base <= offset < base + |line.text| by {
      assert code != [] ==> code[0] in code;
    }
  }

  lemma OwnPainted(line: EditorLine, base: nat, own: seq<StyledMark>, kind: MarkKind, offset: nat)
    requires MarksInside(line) && |own| == |line.marks|
    requires forall i :: 0 <= i < |own| ==> own[i] == StyledOf(line.marks[i], base)
    ensures Painted(own, kind, offset) <==>
            base <= offset < base + |line.text| && Covered(line.marks, kind, offset - base)
  {
    if Painted(own, kind, offset) {
      var m :| m in own && m.start <= offset < m.end && Shows(m, kind);
      var i :| 0 <= i < |own| && own[i] == m;
      assert line.marks[i] in line.marks;
    }
    if base <= offset && Covered(line.marks, kind, offset - base) {
      var m :| m in line.marks && m.kind == kind && m.start <= offset - base < m.end;
      var i :| 0 <= i < |line.marks| && line.marks[i] == m;
      assert own[i] in own;
    }
  }

  /** A character is painted in a style exactly when a mark of its line covers it, or, for code, when its
      line is code. */
  lemma PaintedExactly(lines: Lines, i: nat, p: nat, kind: MarkKind)
    requires AllMarksInside(lines) && i < |lines| && p < |lines[i].text|
    ensures Painted(StyledFrom(lines, 0), kind, LineStart(lines, i) + p) <==>
            Covered(lines[i].marks, kind, p) || (kind == Code && lines[i].block == CodeBlock)
  {
    hide StyledMarksOf, StyledFrom, LineStart, Painted, Covered;
    var offset := LineStart(lines, i) + p;
    PaintedFrom(lines, 0, kind, offset);
    forall j | 0 <= j < |lines|
      ensures Painted(StyledMarksOf(lines[j], LineStart(lines, j)), kind, offset) ==> j == i
    {
      assert lines[j] in lines;
      PaintedInLine(lines[j], LineStart(lines, j), kind, offset);
      if j < i {
        LineStartGrows(lines, j, i);
      } else if i < j {
        LineStartGrows(lines, i, j);
      }
    }
    assert lines[i] in lines;
    PaintedInLine(lines[i], LineStart(lines, i), kind, offset);
  }
}
