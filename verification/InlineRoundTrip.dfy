/** Inline content survives printing and parsing: the text exactly, and at every character that
    is not a line break the same styles in the same order. Printing the result again changes nothing. */
module InlineRoundTrip {
  import opened Basics
  import opened TipTap

  /** Styles over position p, in list order. */
  function StylesAt(marks: seq<EditorMark>, p: nat): seq<Style> {
    if marks == [] then []
    else (if marks[0].start <= p < marks[0].end then [StyleOf(marks[0])] else []) + StylesAt(marks[1..], p)
  }

  lemma {:induction false} StylesAtAppend(a: seq<EditorMark>, b: seq<EditorMark>, p: nat)
    ensures StylesAt(a + b, p) == StylesAt(a, p) + StylesAt(b, p)
  {
    if a == [] {
      assert a + b == b;
    } else {
      assert (a + b)[1..] == a[1..] + b;
      StylesAtAppend(a[1..], b, p);
    }
  }

  lemma {:induction false} StylesAtOutside(marks: seq<EditorMark>, p: nat)
    requires forall m :: m in marks ==> !(m.start <= p < m.end)
    ensures StylesAt(marks, p) == []
  {
    if marks != [] {
      StylesAtOutside(marks[1..], p);
    }
  }

  // ---- Appending inline content ----

  lemma {:induction false} InlineTextAppend(a: seq<Node>, b: seq<Node>)
    ensures InlineText(a + b) == InlineText(a) + InlineText(b)
  {
    if a == [] {
      assert a + b == b;
    } else {
      TailOfAppend(a, b);
      InlineTextAppend(a[1..], b);
      Associative(NodeText(a[0]), InlineText(a[1..]), InlineText(b));
    }
  }

  lemma {:induction false} InlineMarksAppend(a: seq<Node>, b: seq<Node>, offset: nat)
    ensures InlineMarks(a + b, offset) == InlineMarks(a, offset) + InlineMarks(b, offset + |InlineText(a)|)
    decreases |a|
  {
    hide NodeMarks, NodeText;
    if a == [] {
      assert a + b == b;
    } else {
      TailOfAppend(a, b);
      var own, next := NodeMarks(a[0], offset), offset + |NodeText(a[0])|;
      InlineMarksAppend(a[1..], b, next);
      Associative(own, InlineMarks(a[1..], next), InlineMarks(b, next + |InlineText(a[1..])|));
    }
  }

  // ---- One run ----

  /** A mark printed over [a, q) and read back. */
  function Reread(m: EditorMark, a: nat, q: nat): EditorMark {
    EditorMark(a, q, m.kind, StyleOf(m).target)
  }

  function RereadRun(marks: seq<EditorMark>, a: nat, q: nat): seq<EditorMark> {
    if marks == [] then []
    else (if Overlaps(marks[0], a, q) then [Reread(marks[0], a, q)] else []) + RereadRun(marks[1..], a, q)
  }

  lemma PrintedMarkIsRead(m: EditorMark)
    ensures KindOfMark(PrintStyle(StyleOf(m)).kind) == Some(m.kind)
    ensures HrefOf(PrintStyle(StyleOf(m))) == StyleOf(m).target
  {
  }

  lemma {:induction false} RunMarks(marks: seq<EditorMark>, a: nat, q: nat)
    ensures MarksOver(MarksForRange(a, q, marks), a, q) == RereadRun(marks, a, q)
  {
    hide PrintStyle, KindOfMark, HrefOf, Overlaps;
    if marks != [] {
      RunMarks(marks[1..], a, q);
      PrintedMarkIsRead(marks[0]);
      var rest := MarksForRange(a, q, marks[1..]);
      if Overlaps(marks[0], a, q) {
        assert MarksForRange(a, q, marks)[1..] == rest;
      } else {
        assert MarksForRange(a, q, marks) == rest;
      }
    }
  }

  lemma {:induction false} RereadRunMembers(marks: seq<EditorMark>, a: nat, q: nat)
    ensures forall m :: m in RereadRun(marks, a, q) ==> m.start == a && m.end == q
    ensures (exists m :: m in marks && Overlaps(m, a, q)) ==> RereadRun(marks, a, q) != []
  {
    if marks != [] {
      RereadRunMembers(marks[1..], a, q);
    }
  }

  /** No mark of the segment [s, e) starts or ends strictly inside the run [a, q). */
  predicate Uncut(marks: seq<EditorMark>, s: nat, e: nat, a: nat, q: nat) {
    s <= a < q <= e && forall k :: a < k < q ==> !IsCut(marks, s, e, k)
  }

  /** In an uncut run a mark that touches it covers all of it. */
  lemma TouchesIsCovers(marks: seq<EditorMark>, s: nat, e: nat, a: nat, q: nat, m: EditorMark, p: nat)
    requires Uncut(marks, s, e, a, q) && m in marks && a <= p < q
    ensures Overlaps(m, a, q) <==> m.start <= p < m.end
  {
    if Overlaps(m, a, q) {
      if m.start > p {
        assert IsCut(marks, s, e, m.start);
      } else if m.end <= p {
        assert IsCut(marks, s, e, m.end);
      }
    }
  }

  lemma {:induction false} RunStyles(marks: seq<EditorMark>, a: nat, q: nat, p: nat)
    requires a <= p < q
    requires forall m :: m in marks ==> (Overlaps(m, a, q) <==> m.start <= p < m.end)
    ensures StylesAt(RereadRun(marks, a, q), p) == StylesAt(marks, p)
  {
    if marks != [] {
      RunStyles(marks[1..], a, q, p);
      var rest := RereadRun(marks[1..], a, q);
      if Overlaps(marks[0], a, q) {
        assert RereadRun(marks, a, q)[1..] == rest;
      } else {
        assert RereadRun(marks, a, q) == rest;
      }
    }
  }

  function PrintStyles(styles: seq<Style>): seq<Mark> {
    if styles == [] then [] else [PrintStyle(styles[0])] + PrintStyles(styles[1..])
  }

  /** The marks printed on an uncut run are the styles of its first character. */
  lemma {:induction false} RunPrintsStyles(marks: seq<EditorMark>, a: nat, q: nat)
    requires a < q
    requires forall m :: m in marks ==> (Overlaps(m, a, q) <==> m.start <= a < m.end)
    ensures MarksForRange(a, q, marks) == PrintStyles(StylesAt(marks, a))
  {
    hide PrintStyle;
    if marks != [] {
      RunPrintsStyles(marks[1..], a, q);
      var rest := StylesAt(marks[1..], a);
      if Overlaps(marks[0], a, q) {
        assert StylesAt(marks, a)[1..] == rest;
      } else {
        assert StylesAt(marks, a) == rest;
      }
    }
  }

  // ---- One segment ----

  lemma RunNodesUnfold(text: string, marks: seq<EditorMark>, s: nat, a: nat, e: nat) returns (q: nat)
    requires s <= a < e <= |text|
    ensures Uncut(marks, s, e, a, q) && (q == e || IsCut(marks, s, e, q))
    ensures RunNodes(text, marks, s, a, e)
         == [TextNode(text[a..q], MarksForRange(a, q, marks))] + RunNodes(text, marks, s, q, e)
    ensures InlineText(RunNodes(text, marks, s, a, e)) == text[a..q] + InlineText(RunNodes(text, marks, s, q, e))
    ensures InlineMarks(RunNodes(text, marks, s, a, e), a)
         == RereadRun(marks, a, q) + InlineMarks(RunNodes(text, marks, s, q, e), q)
  {
    hide IsCut, MarksForRange, InlineMarks;
    q := NextCut(marks, s, e, a + 1);
    var node, rest := TextNode(text[a..q], MarksForRange(a, q, marks)), RunNodes(text, marks, s, q, e);
    assert ([node] + rest)[1..] == rest;
    assert NodeMarks(node, a) == RereadRun(marks, a, q) by {
      RunMarks(marks, a, q);
      NoMarks(a, q);
    }
    InlineMarksCons(node, rest, a);
  }

  lemma NoMarks(a: nat, q: nat)
    ensures MarksOver([], a, q) == []
  {
  }

  lemma InlineMarksCons(node: Node, rest: seq<Node>, a: nat)
    ensures InlineMarks([node] + rest, a) == NodeMarks(node, a) + InlineMarks(rest, a + |NodeText(node)|)
  {
    assert ([node] + rest)[1..] == rest;
  }

  lemma UncutIsInside(marks: seq<EditorMark>, s: nat, e: nat, a: nat, q: nat)
    requires Uncut(marks, s, e, a, q)
    ensures a < q <= e
  {
  }

  lemma NoRunsRead(text: string, marks: seq<EditorMark>, s: nat, e: nat)
    requires e <= |text|
    ensures RunNodes(text, marks, s, e, e) == [] && InlineText(RunNodes(text, marks, s, e, e)) == text[e..e]
  {
  }

  lemma {:induction false} RunNodesText(text: string, marks: seq<EditorMark>, s: nat, a: nat, e: nat)
    requires s <= a <= e <= |text|
    ensures InlineText(RunNodes(text, marks, s, a, e)) == text[a..e]
    decreases e - a
  {
    hide *;
    if a == e {
      NoRunsRead(text, marks, s, e);
    } else {
      var q := RunNodesUnfold(text, marks, s, a, e);
      assert a < q <= e by { UncutIsInside(marks, s, e, a, q); }
      RunNodesText(text, marks, s, q, e);
      SliceJoins(text, a, q, e);
    }
  }

  /** Where a run may begin or end. */
  predicate RunBoundary(text: string, marks: seq<EditorMark>, q: nat)
    requires q <= |text|
  {
    || q == 0 || q == |text| || text[q - 1] == '\n' || text[q] == '\n'
    || HasBoundary(marks, q)
  }

  predicate HasBoundary(marks: seq<EditorMark>, q: nat) {
    exists m :: m in marks && (m.start == q || m.end == q)
  }

  predicate EdgeOrBoundary(marks: seq<EditorMark>, s: nat, e: nat, q: nat) {
    q == s || q == e || HasBoundary(marks, q)
  }

  /** Marks read back from a segment are runs of it. */
  lemma {:induction false} RunNodesRanges(text: string, marks: seq<EditorMark>, s: nat, a: nat, e: nat)
    requires s <= a <= e <= |text| && EdgeOrBoundary(marks, s, e, a)
    ensures forall m :: m in InlineMarks(RunNodes(text, marks, s, a, e), a) ==>
              a <= m.start < m.end <= e && EdgeOrBoundary(marks, s, e, m.start) && EdgeOrBoundary(marks, s, e, m.end)
    decreases e - a
  {
    if a < e {
      var q := RunNodesUnfold(text, marks, s, a, e);
      RereadRunMembers(marks, a, q);
      assert EdgeOrBoundary(marks, s, e, q);
      RunNodesRanges(text, marks, s, q, e);
    }
  }

  lemma {:induction false} RunNodesStyles(text: string, marks: seq<EditorMark>, s: nat, a: nat, e: nat, p: nat)
    requires s <= a <= p < e <= |text| && EdgeOrBoundary(marks, s, e, a)
    ensures StylesAt(InlineMarks(RunNodes(text, marks, s, a, e), a), p) == StylesAt(marks, p)
    decreases e - a
  {
    hide IsCut, RunNodes, InlineMarks, HasBoundary;
    var q := RunNodesUnfold(text, marks, s, a, e);
    var run, rest := RereadRun(marks, a, q), InlineMarks(RunNodes(text, marks, s, q, e), q);
    assert EdgeOrBoundary(marks, s, e, q) by { CutIsBoundary(marks, s, e, q); }
    StylesAtAppend(run, rest, p);
    RereadRunMembers(marks, a, q);
    RunNodesRanges(text, marks, s, q, e);
    if p < q {
      forall m | m in marks
        ensures Overlaps(m, a, q) <==> m.start <= p < m.end
      {
        TouchesIsCovers(marks, s, e, a, q, m, p);
      }
      RunStyles(marks, a, q, p);
      StylesAtOutside(rest, p);
    } else {
      StylesAtOutside(run, p);
      RunNodesStyles(text, marks, s, q, e, p);
    }
  }

  lemma CutIsBoundary(marks: seq<EditorMark>, s: nat, e: nat, q: nat)
    ensures IsCut(marks, s, e, q) ==> HasBoundary(marks, q)
  {
  }

  // ---- Whole texts ----

  /** What follows the first segment. */
  function AfterSegment(text: string, marks: seq<EditorMark>, e: nat): seq<Node>
    requires e <= |text|
  {
    if e < |text| then [HardBreak()] + InlineFrom(text, marks, e + 1) else []
  }

  lemma InlineFromUnfold(text: string, marks: seq<EditorMark>, s: nat) returns (e: nat)
    requires s <= |text|
    ensures e == SegmentEnd(text, s)
    ensures InlineText(InlineFrom(text, marks, s)) == text[s..e]
            + if e < |text| then "\n" + InlineText(InlineFrom(text, marks, e + 1)) else ""
    ensures InlineMarks(InlineFrom(text, marks, s), s) == InlineMarks(RunNodes(text, marks, s, s, e), s)
            + if e < |text| then InlineMarks(InlineFrom(text, marks, e + 1), e + 1) else []
  {
    hide InlineMarks, RunNodes, InlineText, AfterSegment;
    e := SegmentEnd(text, s);
    var runs, after := RunNodes(text, marks, s, s, e), AfterSegment(text, marks, e);
    assert InlineFrom(text, marks, s) == runs + after by { InlineFromParts(text, marks, s); }
    RunNodesText(text, marks, s, s, e);
    InlineTextAppend(runs, after);
    InlineMarksAppend(runs, after, s);
    AfterSegmentReads(text, marks, e);
  }

  lemma InlineFromParts(text: string, marks: seq<EditorMark>, s: nat)
    requires s <= |text|
    ensures var e := SegmentEnd(text, s);
            InlineFrom(text, marks, s) == RunNodes(text, marks, s, s, e) + AfterSegment(text, marks, e)
  {
    hide RunNodes;
  }

  lemma AfterSegmentReads(text: string, marks: seq<EditorMark>, e: nat)
    requires e <= |text|
    ensures var after := AfterSegment(text, marks, e);
            && InlineText(after) == (if e < |text| then "\n" + InlineText(InlineFrom(text, marks, e + 1)) else "")
            && InlineMarks(after, e) == (if e < |text| then InlineMarks(InlineFrom(text, marks, e + 1), e + 1) else [])
  {
    hide InlineFrom, InlineMarks, InlineText;
    if e < |text| {
      var rest := InlineFrom(text, marks, e + 1);
      BreakReads(rest, e);
      assert AfterSegment(text, marks, e) == [HardBreak()] + rest;
    } else {
      NoInlineMarks(e);
      NoInlineText();
    }
  }

  lemma BreakReads(rest: seq<Node>, e: nat)
    ensures InlineText([HardBreak()] + rest) == "\n" + InlineText(rest)
    ensures InlineMarks([HardBreak()] + rest, e) == InlineMarks(rest, e + 1)
  {
    hide InlineMarks;
    InlineMarksCons(HardBreak(), rest, e);
    assert ([HardBreak()] + rest)[1..] == rest;
  }

  lemma {:induction false} InlineTextRoundTrip(text: string, marks: seq<EditorMark>, s: nat)
    requires s <= |text|
    ensures InlineText(InlineFrom(text, marks, s)) == text[s..]
    decreases |text| - s
  {
    hide InlineFrom, InlineText, InlineMarks, RunNodes;
    var e := InlineFromUnfold(text, marks, s);
    if e < |text| {
      InlineTextRoundTrip(text, marks, e + 1);
      SplitAtBreak(text, s, e);
    } else {
      assert text[s..] == text[s..e] + "";
    }
  }

  lemma SplitAtBreak(text: string, s: nat, e: nat)
    requires s <= e < |text| && text[e] == '\n'
    ensures text[s..] == text[s..e] + ("\n" + text[e + 1..])
  {
    assert text[s..] == text[s..e] + text[e..];
    assert text[e..] == "\n" + text[e + 1..];
  }

  predicate Good(text: string, marks: seq<EditorMark>) {
    forall m :: m in marks ==> m.start < m.end <= |text|
  }

  lemma {:induction false} InlineRanges(text: string, marks: seq<EditorMark>, s: nat)
    requires s <= |text| && (s == 0 || text[s - 1] == '\n')
    ensures forall m :: m in InlineMarks(InlineFrom(text, marks, s), s) ==>
              s <= m.start < m.end <= |text| && RunBoundary(text, marks, m.start) && RunBoundary(text, marks, m.end)
    decreases |text| - s
  {
    hide InlineFrom, InlineMarks, RunNodes, HasBoundary;
    var e := InlineFromUnfold(text, marks, s);
    RunNodesRanges(text, marks, s, s, e);
    if e < |text| {
      InlineRanges(text, marks, e + 1);
    }
  }

  lemma {:induction false} InlineStyles(text: string, marks: seq<EditorMark>, s: nat, p: nat)
    requires s <= p < |text| && text[p] != '\n' && (s == 0 || text[s - 1] == '\n')
    ensures StylesAt(InlineMarks(InlineFrom(text, marks, s), s), p) == StylesAt(marks, p)
    decreases |text| - s
  {
    hide InlineFrom, InlineMarks, RunNodes, RunBoundary, HasBoundary;
    var e := InlineFromUnfold(text, marks, s);
    var here := InlineMarks(RunNodes(text, marks, s, s, e), s);
    RunNodesRanges(text, marks, s, s, e);
    if e < |text| {
      var later := InlineMarks(InlineFrom(text, marks, e + 1), e + 1);
      StylesAtAppend(here, later, p);
      InlineRanges(text, marks, e + 1);
      if p < e {
        StylesAtOutside(later, p);
      } else {
        StylesAtOutside(here, p);
        InlineStyles(text, marks, e + 1, p);
      }
    } else {
      assert here + [] == here;
    }
    if p < e {
      RunNodesStyles(text, marks, s, s, e, p);
    }
  }

  /** Marks of a text after printing and parsing. */
  function RereadMarks(text: string, marks: seq<EditorMark>): seq<EditorMark> {
    InlineMarks(InlineJson(text, marks), 0)
  }

  // ---- Printing again ----

  /** A mark that starts inside the text is seen starting there after the round trip. */
  lemma {:induction false} StartSurvives(text: string, marks: seq<EditorMark>, s: nat, a: nat, e: nat, m: EditorMark)
    requires s <= a <= m.start < e <= |text| && m.start < m.end && m in marks
    requires m.start == a || IsCut(marks, s, e, m.start)
    ensures HasBoundary(InlineMarks(RunNodes(text, marks, s, a, e), a), m.start)
    decreases e - a
  {
    hide IsCut, RunNodes, InlineMarks;
    var q := RunNodesUnfold(text, marks, s, a, e);
    RereadRunMembers(marks, a, q);
    var run, rest := RereadRun(marks, a, q), InlineMarks(RunNodes(text, marks, s, q, e), q);
    if m.start == a {
      assert Overlaps(m, a, q);
      assert run[0] in run + rest && run[0] in run;
    } else {
      StartSurvives(text, marks, s, q, e, m);
    }
  }

  lemma {:induction false} EndSurvives(text: string, marks: seq<EditorMark>, s: nat, a: nat, e: nat, m: EditorMark)
    requires s <= a < m.end < e <= |text| && m.start < m.end && m in marks
    requires IsCut(marks, s, e, m.end)
    ensures HasBoundary(InlineMarks(RunNodes(text, marks, s, a, e), a), m.end)
    decreases e - a
  {
    hide IsCut, RunNodes, InlineMarks;
    var q := RunNodesUnfold(text, marks, s, a, e);
    RereadRunMembers(marks, a, q);
    var run, rest := RereadRun(marks, a, q), InlineMarks(RunNodes(text, marks, s, q, e), q);
    if q == m.end {
      assert Overlaps(m, a, q);
      assert run[0] in run + rest && run[0] in run;
    } else {
      EndSurvives(text, marks, s, q, e, m);
    }
  }

  /** q lies between two characters of one segment. */
  predicate Interior(text: string, q: nat) {
    0 < q < |text| && text[q - 1] != '\n' && text[q] != '\n'
  }

  lemma {:induction false} BoundarySurvives(text: string, marks: seq<EditorMark>, s: nat, q: nat)
    requires s < q && Interior(text, q) && Good(text, marks) && HasBoundary(marks, q)
    ensures HasBoundary(InlineMarks(InlineFrom(text, marks, s), s), q)
    decreases |text| - s
  {
    hide InlineFrom, InlineMarks, RunNodes;
    var e := InlineFromUnfold(text, marks, s);
    var here := InlineMarks(RunNodes(text, marks, s, s, e), s);
    if q < e {
      var m :| m in marks && (m.start == q || m.end == q);
      assert Overlaps(m, s, e);
      if m.start == q {
        StartSurvives(text, marks, s, s, e, m);
      } else {
        EndSurvives(text, marks, s, s, e, m);
      }
      var m' :| m' in here && (m'.start == q || m'.end == q);
      assert m' in InlineMarks(InlineFrom(text, marks, s), s);
    } else {
      BoundarySurvives(text, marks, e + 1, q);
      var later := InlineMarks(InlineFrom(text, marks, e + 1), e + 1);
      var m' :| m' in later && (m'.start == q || m'.end == q);
      assert m' in here + later;
    }
  }

  /** Two mark lists a printer cannot tell apart. */
  ghost predicate SameLook(text: string, a: seq<EditorMark>, b: seq<EditorMark>) {
    && (forall p :: 0 <= p < |text| && text[p] != '\n' ==> StylesAt(a, p) == StylesAt(b, p))
    && (forall q :: Interior(text, q) ==> (HasBoundary(a, q) <==> HasBoundary(b, q)))
  }

  lemma CutExactly(text: string, marks: seq<EditorMark>, s: nat, e: nat, q: nat)
    requires s < q < e <= |text| && Good(text, marks)
    ensures IsCut(marks, s, e, q) <==> HasBoundary(marks, q)
  {
    if HasBoundary(marks, q) {
      var m :| m in marks && (m.start == q || m.end == q);
      assert Overlaps(m, s, e);
    }
  }

  lemma {:induction false} NextCutAgrees(text: string, a: seq<EditorMark>, b: seq<EditorMark>, s: nat, e: nat, q: nat)
    requires s < q <= e <= |text| && Good(text, a) && Good(text, b)
    requires forall k :: q <= k < e ==> (HasBoundary(a, k) <==> HasBoundary(b, k))
    ensures NextCut(a, s, e, q) == NextCut(b, s, e, q)
    decreases e - q
  {
    hide HasBoundary, IsCut, Good;
    if q < e {
      CutExactly(text, a, s, e, q);
      CutExactly(text, b, s, e, q);
      NextCutAgrees(text, a, b, s, e, q + 1);
    }
  }

  lemma RunAgrees(text: string, a: seq<EditorMark>, b: seq<EditorMark>, s: nat, e: nat, at: nat, q: nat)
    requires Uncut(a, s, e, at, q) && Uncut(b, s, e, at, q) && StylesAt(a, at) == StylesAt(b, at)
    ensures MarksForRange(at, q, a) == MarksForRange(at, q, b)
  {
    hide MarksForRange, StylesAt, Overlaps, IsCut;
    forall m | m in a
      ensures Overlaps(m, at, q) <==> m.start <= at < m.end
    {
      TouchesIsCovers(a, s, e, at, q, m, at);
    }
    forall m | m in b
      ensures Overlaps(m, at, q) <==> m.start <= at < m.end
    {
      TouchesIsCovers(b, s, e, at, q, m, at);
    }
    RunPrintsStyles(a, at, q);
    RunPrintsStyles(b, at, q);
  }

  lemma {:induction false} RunNodesAgree(text: string, a: seq<EditorMark>, b: seq<EditorMark>, s: nat, at: nat, e: nat)
    requires s <= at <= e <= |text| && Good(text, a) && Good(text, b) && SameLook(text, a, b)
    requires forall k :: s <= k < e ==> text[k] != '\n'
    ensures RunNodes(text, a, s, at, e) == RunNodes(text, b, s, at, e)
    decreases e - at
  {
    hide MarksForRange, Good, IsCut, HasBoundary, TextNode, StylesAt;
    if at < e {
      assert forall k :: at + 1 <= k < e ==> Interior(text, k);
      NextCutAgrees(text, a, b, s, e, at + 1);
      var q := NextCut(a, s, e, at + 1);
      assert Uncut(a, s, e, at, q) && Uncut(b, s, e, at, q);
      RunAgrees(text, a, b, s, e, at, q);
      RunNodesAgree(text, a, b, s, q, e);
    }
  }

  lemma {:induction false} InlineAgrees(text: string, a: seq<EditorMark>, b: seq<EditorMark>, s: nat)
    requires s <= |text| && Good(text, a) && Good(text, b) && SameLook(text, a, b)
    ensures InlineFrom(text, a, s) == InlineFrom(text, b, s)
    decreases |text| - s
  {
    hide SameLook, Good, RunNodes;
    var e := SegmentEnd(text, s);
    RunNodesAgree(text, a, b, s, s, e);
    if e < |text| {
      InlineAgrees(text, a, b, e + 1);
    }
  }

  /** The round trip of one text: same text, same styles at every character that is not a line
      break, marks inside and non-empty, and an identical second print. */
  lemma InlineJsonRoundTrip(text: string, marks: seq<EditorMark>)
    requires Good(text, marks)
    ensures InlineText(InlineJson(text, marks)) == text
    ensures forall p :: 0 <= p < |text| && text[p] != '\n' ==> StylesAt(RereadMarks(text, marks), p) == StylesAt(marks, p)
    ensures Good(text, RereadMarks(text, marks))
    ensures InlineJson(text, RereadMarks(text, marks)) == InlineJson(text, marks)
  {
    hide StylesAt, InlineFrom, InlineMarks, HasBoundary;
    var reread := RereadMarks(text, marks);
    InlineTextRoundTrip(text, marks, 0);
    InlineRanges(text, marks, 0);
    forall p | 0 <= p < |text| && text[p] != '\n'
      ensures StylesAt(reread, p) == StylesAt(marks, p)
    {
      InlineStyles(text, marks, 0, p);
    }
    forall q | Interior(text, q)
      ensures HasBoundary(reread, q) <==> HasBoundary(marks, q)
    {
      if HasBoundary(marks, q) {
        BoundarySurvives(text, marks, 0, q);
      }
      if HasBoundary(reread, q) {
        BoundaryComesFrom(text, marks, reread, q);
      }
    }
    InlineAgrees(text, reread, marks, 0);
  }

  lemma BoundaryComesFrom(text: string, marks: seq<EditorMark>, reread: seq<EditorMark>, q: nat)
    requires Interior(text, q) && HasBoundary(reread, q)
    requires forall m :: m in reread ==>
               m.start < m.end <= |text| && RunBoundary(text, marks, m.start) && RunBoundary(text, marks, m.end)
    ensures HasBoundary(marks, q)
  {
    var m :| m in reread && (m.start == q || m.end == q);
    assert RunBoundary(text, marks, q);
  }
}
