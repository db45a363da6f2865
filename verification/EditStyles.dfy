/** What edits do to styles, exactly: splitting and joining again, replacing, and toggling outside the
    selection. */
module EditStyles {
  import opened Basics
  import opened TipTap
  import opened InlineRoundTrip
  import opened EditorLines

  // ---- Split and join ----

  /** The mark goes across column col. */
  predicate Straddles(m: EditorMark, col: nat) {
    m.start < col < m.end
  }

  /** From the column on, the head's marks give no style. */
  lemma HeadEndsBefore(marks: seq<EditorMark>, col: nat, p: nat)
    requires col <= p
    ensures StylesAt(MarksUpTo(marks, col), p) == []
  {
    MarksUpToInside(marks, col);
    StylesAtOutside(MarksUpTo(marks, col), p);
  }

  /** What becomes of one mark in the tail. */
  function TailMark(m: EditorMark, col: nat): seq<EditorMark> {
    if m.start >= col && m.end >= col then [m.(start := m.start - col, end := m.end - col)]
    else if m.end > col then [m.(start := 0, end := m.end - col)]
    else []
  }

  lemma TailMarkStyle(m: EditorMark, rest: seq<EditorMark>, col: nat, p: nat)
    requires col <= p
    ensures StylesAt(Appended(TailMark(m, col) + rest, col), p)
         == (if m.start <= p < m.end then [StyleOf(m)] else []) + StylesAt(Appended(rest, col), p)
  {
    hide StylesAt;
    var own := TailMark(m, col);
    if own == [] {
      assert own + rest == rest;
    } else {
      assert (own + rest)[1..] == rest && own + rest != [];
      assert Appended(own + rest, col) == [Moved(own[0], col)] + Appended(rest, col);
      HeadOfMarks(Moved(own[0], col), Appended(rest, col), p);
    }
  }

  /** From the column on, the tail's marks moved back give the old styles. */
  lemma {:induction false} TailStyles(marks: seq<EditorMark>, col: nat, p: nat)
    requires col <= p
    ensures StylesAt(Appended(TailMarks(marks, col), col), p) == StylesAt(marks, p)
  {
    hide StyleOf, Appended;
    if marks == [] {
      assert Appended([], col) == [];
    } else {
      TailStyles(marks[1..], col, p);
      assert TailMarks(marks, col) == TailMark(marks[0], col) + TailMarks(marks[1..], col);
      TailMarkStyle(marks[0], TailMarks(marks[1..], col), col, p);
    }
  }

  lemma HeadOfMarks(m: EditorMark, rest: seq<EditorMark>, p: nat)
    ensures StylesAt([m] + rest, p) == (if m.start <= p < m.end then [StyleOf(m)] else []) + StylesAt(rest, p)
  {
    assert ([m] + rest)[1..] == rest;
  }

  lemma {:induction false} TailStartsLater(marks: seq<EditorMark>, col: nat, p: nat)
    requires p < col
    ensures StylesAt(Appended(TailMarks(marks, col), col), p) == []
  {
    var moved := Appended(TailMarks(marks, col), col);
    forall m | m in moved
      ensures !(m.start <= p < m.end)
    {
      var i :| 0 <= i < |moved| && moved[i] == m;
    }
    StylesAtOutside(moved, p);
  }

  /** No mark that straddles the column covers p. */
  predicate NoneCut(marks: seq<EditorMark>, col: nat, p: nat) {
    forall m :: m in marks && Straddles(m, col) ==> p < m.start
  }

  lemma NoneCutCons(marks: seq<EditorMark>, col: nat, p: nat)
    requires marks != []
    ensures NoneCut(marks, col, p) <==> (Straddles(marks[0], col) ==> p < marks[0].start) && NoneCut(marks[1..], col, p)
  {
    assert marks == [marks[0]] + marks[1..];
  }

  /** Before the column, the head's marks give the old styles except those of marks that straddle. */
  lemma {:induction false} HeadStyles(marks: seq<EditorMark>, col: nat, p: nat)
    requires p < col
    ensures |StylesAt(MarksUpTo(marks, col), p)| <= |StylesAt(marks, p)|
    ensures StylesAt(MarksUpTo(marks, col), p) == StylesAt(marks, p) <==> NoneCut(marks, col, p)
  {
    hide StyleOf, NoneCut;
    if marks == [] {
      assert NoneCut(marks, col, p) by { NothingCut(col, p); }
    } else {
      HeadStyles(marks[1..], col, p);
      NoneCutCons(marks, col, p);
      var m, rest := marks[0], MarksUpTo(marks[1..], col);
      HeadOfMarks(m, rest, p);
      if m.end <= col {
        assert MarksUpTo(marks, col) == [m] + rest;
        SameTails(StyleOf(m), StylesAt(rest, p), StylesAt(marks[1..], p));
      } else {
        assert MarksUpTo(marks, col) == rest;
      }
    }
  }

  lemma NothingCut(col: nat, p: nat)
    ensures NoneCut([], col, p)
  {
  }

  lemma SameTails(x: Style, a: seq<Style>, b: seq<Style>)
    ensures ([x] + a == [x] + b <==> a == b) && [] + a == a && [] + b == b
  {
    assert ([x] + a)[1..] == a && ([x] + b)[1..] == b;
  }

  lemma RejoinedLine(lines: Lines, ix: nat, col: nat)
    requires ix < |lines| && col <= |lines[ix].text|
    requires lines[ix].block !in {Image, CodeBlock} && !(IsListBlock(lines[ix].block) && lines[ix].text == "")
    ensures |SplitLines(lines, ix, col)| == |lines| + 1
    ensures var back := JoinLines(SplitLines(lines, ix, col), ix + 1);
            && |back| == |lines|
            && back[ix].marks == MarksUpTo(lines[ix].marks, col) + Appended(TailMarks(lines[ix].marks, col), col)
            && forall i :: 0 <= i < |lines| && i != ix ==> back[i] == lines[i]
  {
    hide MarksUpTo, TailMarks, Appended;
    var two, split := SplitLine(lines[ix], col), SplitLines(lines, ix, col);
    assert split[ix] == two[0] && split[ix + 1] == two[1];
    assert JoinLines(split, ix + 1) == Splice(lines, ix, ix + 1, [Joined(two[0], two[1])]);
  }

  /** Joining right after a split gives back every style of every line exactly when no mark of the
      split line goes across the column. */
  lemma StylesComeBackExactly(lines: Lines, ix: nat, col: nat)
    requires ix < |lines| && col <= |lines[ix].text|
    requires lines[ix].block !in {Image, CodeBlock} && !(IsListBlock(lines[ix].block) && lines[ix].text == "")
    ensures var back := JoinLines(SplitLines(lines, ix, col), ix + 1);
            && |back| == |lines|
            && (SameEverywhere(back, lines) <==> forall m :: m in lines[ix].marks ==> !Straddles(m, col))
  {
    hide MarksUpTo, TailMarks, Appended, StylesAt, JoinLines, SplitLines, IsListBlock;
    RejoinedLine(lines, ix, col);
    var back, marks := JoinLines(SplitLines(lines, ix, col), ix + 1), lines[ix].marks;
    if m :| m in marks && Straddles(m, col) {
      assert !NoneCut(marks, col, m.start);
      RejoinedAt(marks, col, m.start);
    } else {
      forall i, p: nat | 0 <= i < |lines|
        ensures StylesAt(back[i].marks, p) == StylesAt(lines[i].marks, p)
      {
        RejoinedAt(marks, col, p);
      }
    }
  }

  ghost predicate SameEverywhere(a: Lines, b: Lines)
    requires |a| == |b|
  {
    forall i, p: nat :: 0 <= i < |a| ==> StylesAt(a[i].marks, p) == StylesAt(b[i].marks, p)
  }

  /** One position keeps its styles when it is not before the column, or no straddling mark covers it. */
  lemma RejoinedAt(marks: seq<EditorMark>, col: nat, p: nat)
    ensures StylesAt(MarksUpTo(marks, col) + Appended(TailMarks(marks, col), col), p) == StylesAt(marks, p) <==>
            p >= col || NoneCut(marks, col, p)
  {
    hide MarksUpTo, TailMarks, Appended, StylesAt, NoneCut;
    var head, tail := MarksUpTo(marks, col), Appended(TailMarks(marks, col), col);
    StylesAtAppend(head, tail, p);
    if p >= col {
      TailStyles(marks, col, p);
      HeadEndsBefore(marks, col, p);
      assert [] + StylesAt(marks, p) == StylesAt(marks, p);
    } else {
      HeadStyles(marks, col, p);
      TailStartsLater(marks, col, p);
      NothingAdded(StylesAt(head, p));
    }
  }

  // ---- Replacing ----

  /** The mark goes when text[start..end] is replaced, although it covers something beside it. */
  predicate Torn(m: EditorMark, start: nat, end: nat) {
    m.start < end && m.end > start && (m.start < start || m.end > end)
  }

  /** No torn mark covers p. */
  predicate NoneTorn(marks: seq<EditorMark>, start: nat, end: nat, p: nat) {
    forall m :: m in marks && Torn(m, start, end) ==> !(m.start <= p < m.end)
  }

  lemma NoneTornCons(marks: seq<EditorMark>, start: nat, end: nat, p: nat)
    requires marks != []
    ensures NoneTorn(marks, start, end, p) <==>
            (Torn(marks[0], start, end) ==> !(marks[0].start <= p < marks[0].end)) && NoneTorn(marks[1..], start, end, p)
  {
    hide Torn;
    assert marks == [marks[0]] + marks[1..];
  }

  lemma NothingTorn(start: nat, end: nat, p: nat)
    ensures NoneTorn([], start, end, p)
  {
  }

  /** Where a character beside the replaced range is afterwards. */
  function Place(p: nat, start: nat, end: nat, inserted: nat): nat
    requires start <= end && (p < start || end <= p)
  {
    if p < start then p else p - end + start + inserted
  }

  /** What the first mark and the others give at p. */
  lemma StylesUnfold(marks: seq<EditorMark>, p: nat)
    ensures marks == [] ==> StylesAt(marks, p) == []
    ensures marks != [] ==>
              StylesAt(marks, p) ==
              (if marks[0].start <= p < marks[0].end then [StyleOf(marks[0])] else []) + StylesAt(marks[1..], p)
  {
  }

  lemma MarkShifted(m: EditorMark, rest: seq<EditorMark>, start: nat, end: nat, inserted: nat, p: nat)
    requires start <= end && m.start <= m.end && (p < start || end <= p)
    ensures StylesAt(ShiftMark(m, start, end, inserted) + rest, Place(p, start, end, inserted)) ==
            (if m.start <= p < m.end && !Torn(m, start, end) then [StyleOf(m)] else [])
            + StylesAt(rest, Place(p, start, end, inserted))
  {
    hide StylesAt;
    var own := ShiftMark(m, start, end, inserted);
    if own == [] {
      assert own + rest == rest;
    } else {
      HeadOfMarks(own[0], rest, Place(p, start, end, inserted));
    }
  }

  /** Beside the replaced range a character keeps its styles exactly when no torn mark covers it. */
  lemma {:induction false} ShiftedStyles(marks: seq<EditorMark>, start: nat, end: nat, inserted: nat, p: nat)
    requires start <= end && (p < start || end <= p) && forall m :: m in marks ==> m.start <= m.end
    ensures var after := StylesAt(ShiftMarks(marks, start, end, inserted), Place(p, start, end, inserted));
            && |after| <= |StylesAt(marks, p)|
            && (after == StylesAt(marks, p) <==> NoneTorn(marks, start, end, p))
  {
    hide StylesAt, StyleOf, NoneTorn, Torn, ShiftMark, Place;
    StylesUnfold(marks, p);
    StylesUnfold([], Place(p, start, end, inserted));
    if marks == [] {
      NothingTorn(start, end, p);
    } else {
      var m, rest := marks[0], ShiftMarks(marks[1..], start, end, inserted);
      ShiftedStyles(marks[1..], start, end, inserted, p);
      NoneTornCons(marks, start, end, p);
      MarkShifted(m, rest, start, end, inserted, p);
      SameTails(StyleOf(m), StylesAt(rest, Place(p, start, end, inserted)), StylesAt(marks[1..], p));
    }
  }

  lemma {:induction false} InsertedIsPlain(marks: seq<EditorMark>, start: nat, end: nat, inserted: nat, p: nat)
    requires start <= end && start <= p < start + inserted && forall m :: m in marks ==> m.start <= m.end
    ensures StylesAt(ShiftMarks(marks, start, end, inserted), p) == []
  {
    hide StylesAt;
    StylesUnfold([], p);
    if marks != [] {
      var own, rest := ShiftMark(marks[0], start, end, inserted), ShiftMarks(marks[1..], start, end, inserted);
      InsertedIsPlain(marks[1..], start, end, inserted, p);
      if own == [] {
        assert own + rest == rest;
      } else {
        HeadOfMarks(own[0], rest, p);
      }
    }
  }

  /** Every character before column sc of the first line and from column ec of the last one on has the
      styles it had. */
  ghost predicate SurvivorsKeep(head: seq<EditorMark>, tail: seq<EditorMark>, after: seq<EditorMark>,
                                sc: nat, ec: nat, inserted: nat) {
    && (forall p: nat :: p < sc ==> StylesAt(after, p) == StylesAt(head, p))
    && (forall p: nat :: ec <= p ==> StylesAt(after, p - ec + sc + inserted) == StylesAt(tail, p))
  }

  lemma WithinLineExactly(marks: seq<EditorMark>, sc: nat, ec: nat, inserted: nat)
    requires sc <= ec && forall m :: m in marks ==> m.start <= m.end
    ensures SurvivorsKeep(marks, marks, ShiftMarks(marks, sc, ec, inserted), sc, ec, inserted) <==>
            forall m :: m in marks ==> !Torn(m, sc, ec)
  {
    hide StylesAt, ShiftMarks;
    var after := ShiftMarks(marks, sc, ec, inserted);
    if m :| m in marks && Torn(m, sc, ec) {
      var p := if m.start < sc then m.start else m.end - 1;
      assert !NoneTorn(marks, sc, ec, p);
      ShiftedStyles(marks, sc, ec, inserted, p);
      assert StylesAt(after, Place(p, sc, ec, inserted)) != StylesAt(marks, p);
    } else {
      forall p: nat | p < sc || ec <= p
        ensures StylesAt(after, Place(p, sc, ec, inserted)) == StylesAt(marks, p)
      {
        ShiftedStyles(marks, sc, ec, inserted, p);
      }
      forall p: nat | ec <= p
        ensures StylesAt(after, p - ec + sc + inserted) == StylesAt(marks, p)
      {
        assert Place(p, sc, ec, inserted) == p - ec + sc + inserted;
      }
      forall p: nat | p < sc
        ensures StylesAt(after, p) == StylesAt(marks, p)
      {
        assert Place(p, sc, ec, inserted) == p;
      }
    }
  }

  /** No mark covers a character from column ec on. */
  predicate PlainFrom(marks: seq<EditorMark>, ec: nat) {
    forall m :: m in marks && m.start < m.end ==> m.end <= ec
  }

  lemma {:induction false} CoveredHasStyle(marks: seq<EditorMark>, m: EditorMark, p: nat)
    requires m in marks && m.start <= p < m.end
    ensures StylesAt(marks, p) != []
  {
    if m != marks[0] {
      CoveredHasStyle(marks[1..], m, p);
    }
  }

  lemma AcrossLinesExactly(head: seq<EditorMark>, tail: seq<EditorMark>, sc: nat, ec: nat, inserted: nat)
    requires forall m :: m in tail ==> m.start <= m.end
    ensures SurvivorsKeep(head, tail, MarksUpTo(head, sc), sc, ec, inserted) <==>
            (forall m :: m in head ==> !Straddles(m, sc)) && PlainFrom(tail, ec)
  {
    hide StylesAt, MarksUpTo;
    var after := MarksUpTo(head, sc);
    if m :| m in head && Straddles(m, sc) {
      assert !NoneCut(head, sc, m.start);
      HeadStyles(head, sc, m.start);
    } else if m :| m in tail && m.start < m.end && m.end > ec {
      var p := Max(m.start, ec);
      CoveredHasStyle(tail, m, p);
      HeadEndsBefore(head, sc, p - ec + sc + inserted);
      assert StylesAt(after, p - ec + sc + inserted) != StylesAt(tail, p);
    } else {
      forall p: nat | p < sc
        ensures StylesAt(after, p) == StylesAt(head, p)
      {
        HeadStyles(head, sc, p);
      }
      forall p: nat | ec <= p
        ensures StylesAt(after, p - ec + sc + inserted) == StylesAt(tail, p)
      {
        StylesAtOutside(tail, p);
        HeadEndsBefore(head, sc, p - ec + sc + inserted);
      }
    }
  }

  /** No mark covers a character that survives a replacement and goes with it. */
  predicate TearsNothing(lines: Lines, sl: nat, sc: nat, el: nat, ec: nat)
    requires sl <= el < |lines|
  {
    if sl == el then forall m :: m in lines[sl].marks ==> !Torn(m, sc, ec)
    else (forall m :: m in lines[sl].marks ==> !Straddles(m, sc)) && PlainFrom(lines[el].marks, ec)
  }

  /** A replacement leaves every surviving character its styles exactly when, within a line, no mark
      reaches into the range from outside or over it, and, across lines, no mark goes over the first
      column and nothing after the second one is styled. What is inserted has no style, and the other
      lines are as they were. */
  lemma ReplacementStylesExactly(lines: Lines, sl: nat, sc: nat, el: nat, ec: nat, inserted: string)
    requires sl <= el < |lines| && sc <= |lines[sl].text| && ec <= |lines[el].text| && (sl == el ==> sc <= ec)
    requires AllMarksInside(lines)
    ensures var after := ReplaceLines(lines, sl, sc, el, ec, inserted);
            && |after| == |lines| - (el - sl)
            && (forall i :: 0 <= i < sl ==> after[i] == lines[i])
            && (forall i :: sl < i < |after| ==> after[i] == lines[i + (el - sl)])
            && (forall p :: sc <= p < sc + |inserted| ==> StylesAt(after[sl].marks, p) == [])
            && (SurvivorsKeep(lines[sl].marks, lines[el].marks, after[sl].marks, sc, ec, |inserted|) <==>
                TearsNothing(lines, sl, sc, el, ec))
  {
    hide StylesAt, ShiftMarks, MarksUpTo, SurvivorsKeep, Torn, Straddles, PlainFrom;
    var head, tail := lines[sl].marks, lines[el].marks;
    assert lines[sl] in lines && lines[el] in lines;
    forall p | sc <= p < sc + |inserted|
      ensures StylesAt(ReplacedLine(lines, sl, sc, el, ec, inserted).marks, p) == []
    {
      if sl == el {
        InsertedIsPlain(head, sc, ec, |inserted|, p);
      } else {
        HeadEndsBefore(head, sc, p);
      }
    }
    if sl == el {
      WithinLineExactly(head, sc, ec, |inserted|);
    } else {
      AcrossLinesExactly(head, tail, sc, ec, |inserted|);
    }
  }

  // ---- Toggling ----

  /** A mark that toggling clears, although it reaches beyond the selection. */
  predicate SticksOut(m: EditorMark, kind: MarkKind, start: nat, end: nat) {
    m.kind == kind && Overlaps(m, start, end) && (m.start < start || m.end > end)
  }

  /** No mark that is cleared although it sticks out covers p. */
  predicate NoneCleared(marks: seq<EditorMark>, kind: MarkKind, start: nat, end: nat, p: nat) {
    forall m :: m in marks && SticksOut(m, kind, start, end) ==> !(m.start <= p < m.end)
  }

  lemma NoneClearedCons(marks: seq<EditorMark>, kind: MarkKind, start: nat, end: nat, p: nat)
    requires marks != []
    ensures NoneCleared(marks, kind, start, end, p) <==>
            && (SticksOut(marks[0], kind, start, end) ==> !(marks[0].start <= p < marks[0].end))
            && NoneCleared(marks[1..], kind, start, end, p)
  {
    hide SticksOut;
    assert marks == [marks[0]] + marks[1..];
  }

  lemma {:induction false} ClearedStyles(marks: seq<EditorMark>, kind: MarkKind, start: nat, end: nat, p: nat)
    requires !(start <= p < end)
    ensures |StylesAt(Cleared(marks, kind, start, end), p)| <= |StylesAt(marks, p)|
    ensures StylesAt(Cleared(marks, kind, start, end), p) == StylesAt(marks, p) <==> NoneCleared(marks, kind, start, end, p)
  {
    hide StyleOf, NoneCleared;
    if marks == [] {
      NothingCleared(kind, start, end, p);
    } else {
      ClearedStyles(marks[1..], kind, start, end, p);
      NoneClearedCons(marks, kind, start, end, p);
      var m, rest := marks[0], Cleared(marks[1..], kind, start, end);
      HeadOfMarks(m, rest, p);
      SameTails(StyleOf(m), StylesAt(rest, p), StylesAt(marks[1..], p));
      if m.kind == kind && Overlaps(m, start, end) {
        assert Cleared(marks, kind, start, end) == rest;
      } else {
        assert Cleared(marks, kind, start, end) == [m] + rest;
      }
    }
  }

  lemma NothingCleared(kind: MarkKind, start: nat, end: nat, p: nat)
    ensures NoneCleared([], kind, start, end, p)
  {
  }

  ghost predicate SameOutside(a: seq<EditorMark>, b: seq<EditorMark>, start: nat, end: nat) {
    forall p: nat :: !(start <= p < end) ==> StylesAt(a, p) == StylesAt(b, p)
  }

  /** Outside the selection one position keeps its styles when no mark that sticks out covers it. */
  lemma ToggleAt(line: EditorLine, kind: MarkKind, start: nat, end: nat, p: nat)
    requires start < end && !(start <= p < end)
    ensures StylesAt(ToggledLine(line, kind, start, end).marks, p) == StylesAt(line.marks, p) <==>
            NoneCleared(line.marks, kind, start, end, p)
  {
    hide StylesAt, Cleared, IsActive, NoneCleared;
    var kept := Cleared(line.marks, kind, start, end);
    ClearedStyles(line.marks, kind, start, end, p);
    var added := EditorMark(start, end, kind, if kind == Link then Some(LINK_DEFAULT) else None);
    StylesAtAppend(kept, [added], p);
    StylesAtOutside([added], p);
    NothingAdded(StylesAt(kept, p));
  }

  /** Toggling leaves every style outside the selection alone exactly when no mark it clears reaches
      beyond the selection. */
  lemma ToggleOutsideExactly(line: EditorLine, kind: MarkKind, start: nat, end: nat)
    requires start < end
    ensures SameOutside(ToggledLine(line, kind, start, end).marks, line.marks, start, end) <==>
            forall m :: m in line.marks ==> !SticksOut(m, kind, start, end)
  {
    hide StylesAt, ToggledLine;
    if m :| m in line.marks && SticksOut(m, kind, start, end) {
      var p := if m.start < start then m.start else m.end - 1;
      assert !(start <= p < end) && !NoneCleared(line.marks, kind, start, end, p);
      ToggleAt(line, kind, start, end, p);
    } else {
      forall p: nat | !(start <= p < end)
        ensures StylesAt(ToggledLine(line, kind, start, end).marks, p) == StylesAt(line.marks, p)
      {
        ToggleAt(line, kind, start, end, p);
      }
    }
  }
}
