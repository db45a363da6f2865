/** A document survives being printed and parsed. */
module DocRoundTrip {
  import opened Basics
  import opened TipTap
  import opened InlineRoundTrip

  /** Number a line starts its ordered list with, when it is the first of a run. */
  function NewStart(lines: seq<EditorLine>, i: nat): Option<nat>
    requires i < |lines|
  {
    if lines[i].block == OrderedItem && (i == 0 || lines[i - 1].block != OrderedItem)
    then Some(lines[i].orderedStart.GetOr(1)) else None
  }

  function RereadLine(line: EditorLine, start: Option<nat>): EditorLine {
    EditorLine(line.block, line.text, RereadMarks(line.text, line.marks), None, start)
  }

  /** What becomes of line i: one line, or none for an image without a source. */
  function RereadAt(lines: seq<EditorLine>, i: nat): (r: seq<EditorLine>)
    requires i < |lines|
  {
    var line := lines[i];
    match line.block
    case Image =>
      var src := Trim(line.imageSrc.GetOr(""));
      if src == "" then [] else [ImageLine(src)]
    case CodeBlock => [EditorLine(CodeBlock, line.text, [], None, None)]
    case _ => [RereadLine(line, NewStart(lines, i))]
  }

  function RereadRange(lines: seq<EditorLine>, i: nat, j: nat): seq<EditorLine>
    requires i <= j <= |lines|
    decreases j - i
  {
    if i == j then [] else RereadAt(lines, i) + RereadRange(lines, i + 1, j)
  }

  lemma {:induction false} RereadRangeSplits(lines: seq<EditorLine>, i: nat, j: nat, k: nat)
    requires i <= j <= k <= |lines|
    ensures RereadRange(lines, i, k) == RereadRange(lines, i, j) + RereadRange(lines, j, k)
    decreases j - i
  {
    hide RereadAt;
    if i < j {
      RereadRangeSplits(lines, i + 1, j, k);
    }
  }

  // ---- One line ----

  lemma {:induction false} RunNodesAreText(text: string, marks: seq<EditorMark>, s: nat, a: nat, e: nat)
    requires a <= e <= |text|
    ensures forall n :: n in RunNodes(text, marks, s, a, e) ==> n.kind == "text"
    ensures a < e ==> RunNodes(text, marks, s, a, e) != []
    decreases e - a
  {
    hide IsCut, MarksForRange;
    if a < e {
      RunNodesAreText(text, marks, s, NextCut(marks, s, e, a + 1), e);
    }
  }

  lemma {:induction false} InlineHasNoImage(text: string, marks: seq<EditorMark>, s: nat)
    requires s <= |text|
    ensures forall n :: n in InlineFrom(text, marks, s) ==> !IsImage(n)
    ensures s < |text| <==> InlineFrom(text, marks, s) != []
    decreases |text| - s
  {
    hide RunNodes, InlineFrom;
    var e := SegmentEnd(text, s);
    RunNodesAreText(text, marks, s, s, e);
    NoRuns(text, marks, s, s);
    InlineFromParts(text, marks, s);
    if e < |text| {
      InlineHasNoImage(text, marks, e + 1);
    }
  }

  lemma {:induction false} ChunkIsAll(children: seq<Node>, i: nat)
    requires i <= |children| && forall n :: n in children ==> !IsImage(n)
    ensures ChunkEnd(children, i) == |children|
    decreases |children| - i
  {
    if i < |children| {
      ChunkIsAll(children, i + 1);
    }
  }

  lemma MixedOfInline(line: EditorLine, block: BlockKind, start: Option<nat>)
    ensures Mixed(ParagraphJson(line).content, block, start)
         == [EditorLine(block, line.text, RereadMarks(line.text, line.marks), None, start)]
  {
    var content := InlineJson(line.text, line.marks);
    hide InlineJson, InlineFrom;
    assert content == InlineFrom(line.text, line.marks, 0) by { InlineJsonIs(line.text, line.marks); }
    InlineHasNoImage(line.text, line.marks, 0);
    InlineTextRoundTrip(line.text, line.marks, 0);
    assert line.text[0..] == line.text;
    if content == [] {
      NoInlineMarks(0);
    } else {
      ChunkIsAll(content, 0);
      assert content[0..|content|] == content;
      assert MixedFrom(content, |content|, block, start) == [];
    }
  }

  lemma InlineJsonIs(text: string, marks: seq<EditorMark>)
    ensures InlineJson(text, marks) == InlineFrom(text, marks, 0)
  {
  }

  lemma SingleRereads(lines: seq<EditorLine>, i: nat)
    requires i < |lines| && GroupOf(lines[i].block) == Single
    ensures Block(LineToBlockJson(lines[i])) == RereadAt(lines, i)
  {
    hide Mixed, InlineFrom, InlineMarks;
    var line := lines[i];
    match line.block {
      case Paragraph => MixedOfInline(line, Paragraph, None);
      case Heading(level) => InlineTextRoundTrip(line.text, line.marks, 0);
      case CodeBlock =>
        OneTextNode(line.text);
      case Image =>
    }
  }

  lemma OneTextNode(text: string)
    ensures InlineText([TextNode(text, [])]) == text && InlineText([]) == ""
  {
    assert [TextNode(text, [])][1..] == [];
    assert text + "" == text;
  }

  // ---- Containers ----

  lemma OneParagraphItem(line: EditorLine, kind: BlockKind, start: Option<nat>)
    ensures ItemBlocks([ParagraphJson(line)], kind, start) == ([RereadLine(line, start).(block := kind)], None)
  {
    hide Mixed, InlineJson;
    var blocks := [ParagraphJson(line)];
    assert blocks[1..] == [];
    assert ItemBlocks([], kind, None) == ([], None);
    MixedOfInline(line, kind, start);
    assert [RereadLine(line, start).(block := kind)] + [] == [RereadLine(line, start).(block := kind)];
  }

  lemma OneParagraphTask(line: EditorLine, checked: bool)
    ensures TaskBlocks([ParagraphJson(line)], checked) == [RereadLine(line, None).(block := TaskItem(checked))]
  {
    hide Mixed, InlineJson;
    assert [ParagraphJson(line)][1..] == [];
    MixedOfInline(line, TaskItem(checked), None);
  }

  lemma MapLinesTail(f: EditorLine -> Node, lines: seq<EditorLine>, k: nat, j: nat)
    requires k < j <= |lines|
    ensures var all := MapLines(f, lines[k..j]);
            all != [] && all[0] == f(lines[k]) && all[1..] == MapLines(f, lines[k + 1..j])
  {
    assert lines[k..j][1..] == lines[k + 1..j];
  }

  /** All of lines[i..j] are of one gathered kind, and no earlier neighbour is. */
  predicate IsGroup(lines: seq<EditorLine>, i: nat, j: nat, group: Group) {
    && i < j <= |lines| && group != Single
    && (forall k :: i <= k < j ==> GroupOf(lines[k].block) == group)
    && (i == 0 || GroupOf(lines[i - 1].block) != group)
  }

  lemma {:induction false} ListRereads(lines: seq<EditorLine>, k: nat, j: nat, kind: BlockKind)
    requires k <= j <= |lines| && (kind == BulletItem || kind == OrderedItem)
    requires forall l :: k <= l < j ==> lines[l].block == kind
    ensures Items(MapLines(ListItemJson, lines[k..j]), kind, if k < j then NewStart(lines, k) else None)
         == RereadRange(lines, k, j)
    decreases j - k
  {
    hide ParagraphJson, RereadMarks, ItemBlocks;
    if k < j {
      MapLinesTail(ListItemJson, lines, k, j);
      OneParagraphItem(lines[k], kind, NewStart(lines, k));
      ListRereads(lines, k + 1, j, kind);
    }
  }

  lemma {:induction false} TasksReread(lines: seq<EditorLine>, k: nat, j: nat)
    requires k <= j <= |lines| && forall l :: k <= l < j ==> lines[l].block.TaskItem?
    ensures Tasks(MapLines(TaskItemJson, lines[k..j])) == RereadRange(lines, k, j)
    decreases j - k
  {
    hide ParagraphJson, RereadMarks, TaskBlocks;
    if k < j {
      MapLinesTail(TaskItemJson, lines, k, j);
      OneParagraphTask(lines[k], lines[k].block.checked);
      TasksReread(lines, k + 1, j);
    }
  }

  lemma {:induction false} QuotesReread(lines: seq<EditorLine>, k: nat, j: nat)
    requires k <= j <= |lines| && forall l :: k <= l < j ==> lines[l].block == Blockquote
    ensures Quoted(MapLines(LineToBlockJson, lines[k..j])) == RereadRange(lines, k, j)
    decreases j - k
  {
    hide InlineJson, RereadMarks, Mixed;
    if k < j {
      MapLinesTail(LineToBlockJson, lines, k, j);
      MixedOfInline(lines[k], Blockquote, None);
      QuotesReread(lines, k + 1, j);
    }
  }

  lemma GroupRereads(lines: seq<EditorLine>, i: nat, j: nat, group: Group)
    requires IsGroup(lines, i, j, group)
    ensures Block(GroupJson(group, lines[i..j])) == RereadRange(lines, i, j)
  {
    hide MapLines, RereadRange, Items, Tasks, Quoted;
    match group {
      case Bullets => ListRereads(lines, i, j, BulletItem);
      case Ordereds => ListRereads(lines, i, j, OrderedItem);
      case TasksGroup => TasksReread(lines, i, j);
      case Quotes => QuotesReread(lines, i, j);
    }
  }

  /** i starts a block of the printed document. */
  predicate AtBlock(lines: seq<EditorLine>, i: nat) {
    i < |lines| ==>
      i == 0 || GroupOf(lines[i].block) == Single || GroupOf(lines[i - 1].block) != GroupOf(lines[i].block)
  }

  lemma {:induction false} PrintedRereads(lines: seq<EditorLine>, i: nat)
    requires i <= |lines| && AtBlock(lines, i)
    ensures Blocks(PrintFrom(lines, i)) == RereadRange(lines, i, |lines|)
    decreases |lines| - i
  {
    hide Block, LineToBlockJson, GroupJson, RereadAt;
    if i < |lines| {
      var group := GroupOf(lines[i].block);
      if group == Single {
        SingleRereads(lines, i);
        PrintedRereads(lines, i + 1);
        assert PrintFrom(lines, i)[1..] == PrintFrom(lines, i + 1);
      } else {
        var j := GroupEnd(lines, i + 1, group);
        GroupRereads(lines, i, j, group);
        RereadRangeSplits(lines, i, j, |lines|);
        PrintedRereads(lines, j);
        assert PrintFrom(lines, i)[1..] == PrintFrom(lines, j);
      }
    }
  }

  /** The whole document, with no condition on the lines. */
  lemma PrintedDocRereads(lines: seq<EditorLine>)
    requires lines != []
    ensures LinesFromDoc(PrintDoc(lines)) == RereadRange(lines, 0, |lines|)
  {
    PrintedRereads(lines, 0);
  }

  // ---- When the shape survives ----

  predicate Matches(a: EditorLine, b: EditorLine) {
    a.block == b.block && a.text == b.text && (a.block == Image ==> a.imageSrc == b.imageSrc)
  }

  predicate SameShape(a: seq<EditorLine>, b: seq<EditorLine>) {
    |a| == |b| && forall i :: 0 <= i < |a| ==> Matches(a[i], b[i])
  }

  predicate PlainImage(line: EditorLine) {
    line.block == Image ==> HoldsImage(line)
  }

  predicate IsBlank(s: string) {
    forall c :: c in s ==> IsWhitespace(c)
  }

  /** Trimming takes white space from both ends and nothing else. */
  lemma TrimExactly(s: string) returns (before: string, after: string)
    ensures s == before + Trim(s) + after && IsBlank(before) && IsBlank(after)
    ensures Trim(s) != "" ==> !IsWhitespace(Trim(s)[0]) && !IsWhitespace(Trim(s)[|Trim(s)| - 1])
  {
    hide IsWhitespace;
    before := TrimmedStart(s);
    after := TrimmedEnd(TrimStart(s));
    Associative(before, Trim(s), after);
    if Trim(s) != "" {
      assert TrimStart(s)[0] == Trim(s)[0];
    }
  }

  lemma {:induction false} TrimmedStart(s: string) returns (before: string)
    ensures s == before + TrimStart(s) && IsBlank(before)
    ensures TrimStart(s) != "" ==> !IsWhitespace(TrimStart(s)[0])
  {
    hide IsWhitespace;
    before := "";
    if s != "" && IsWhitespace(s[0]) {
      before := TrimmedStart(s[1..]);
      before := [s[0]] + before;
    }
  }

  lemma {:induction false} TrimmedEnd(s: string) returns (after: string)
    ensures s == TrimEnd(s) + after && IsBlank(after)
    ensures TrimEnd(s) != "" ==> !IsWhitespace(TrimEnd(s)[|TrimEnd(s)| - 1])
  {
    hide IsWhitespace;
    after := "";
    if s != "" && IsWhitespace(s[|s| - 1]) {
      after := TrimmedEnd(s[..|s| - 1]);
      after := after + [s[|s| - 1]];
    }
  }

  predicate HoldsImage(line: EditorLine) {
    line.text == "" && line.imageSrc.Some? && line.imageSrc.value != "" && Trim(line.imageSrc.value) == line.imageSrc.value
  }

  lemma {:induction false} RereadRangeLength(lines: seq<EditorLine>, i: nat, j: nat)
    requires i <= j <= |lines|
    ensures |RereadRange(lines, i, j)| <= j - i
    ensures |RereadRange(lines, i, j)| == j - i ==>
              forall k :: i <= k < j ==> |RereadAt(lines, k)| == 1 && RereadRange(lines, i, j)[k - i] == RereadAt(lines, k)[0]
    decreases j - i
  {
    hide RereadMarks;
    if i < j {
      RereadRangeLength(lines, i + 1, j);
    }
  }

  lemma {:induction false} RereadRangeFull(lines: seq<EditorLine>, i: nat, j: nat)
    requires i <= j <= |lines| && forall k :: i <= k < j ==> |RereadAt(lines, k)| == 1
    ensures |RereadRange(lines, i, j)| == j - i
    decreases j - i
  {
    hide RereadAt;
    if i < j {
      RereadRangeFull(lines, i + 1, j);
    }
  }

  /** Line i gives back exactly one line, of its shape. */
  predicate SameLine(lines: seq<EditorLine>, i: nat)
    requires i < |lines|
  {
    |RereadAt(lines, i)| == 1 && Matches(RereadAt(lines, i)[0], lines[i])
  }

  lemma LineShape(lines: seq<EditorLine>, i: nat)
    requires i < |lines|
    ensures SameLine(lines, i) <==> PlainImage(lines[i])
  {
    hide RereadMarks, Trim;
    TrimIsIdempotent(lines[i].imageSrc.GetOr(""));
    assert Trim("") == "" by { TrimEmpty(); }
  }

  lemma TrimEmpty()
    ensures Trim("") == ""
  {
  }

  lemma {:induction false} TrimStartShape(s: string)
    ensures TrimStart(s) == "" || !IsWhitespace(TrimStart(s)[0])
  {
    hide IsWhitespace;
    if s != [] && IsWhitespace(s[0]) {
      TrimStartShape(s[1..]);
    }
  }

  lemma {:induction false} TrimEndShape(s: string)
    ensures TrimEnd(s) <= s
    ensures TrimEnd(s) == "" || !IsWhitespace(TrimEnd(s)[|TrimEnd(s)| - 1])
  {
    hide IsWhitespace;
    if s != [] && IsWhitespace(s[|s| - 1]) {
      TrimEndShape(s[..|s| - 1]);
    }
  }

  lemma TrimIsIdempotent(s: string)
    ensures Trim(Trim(s)) == Trim(s)
  {
    hide IsWhitespace;
    TrimStartShape(s);
    TrimEndShape(TrimStart(s));
    var t := Trim(s);
    if t != "" {
      assert t[0] == TrimStart(s)[0];
      assert TrimStart(t) == t;
    }
  }

  /** Line count, blocks, texts and image sources survive exactly when every image line is empty
      text with a trimmed, non-empty source. Marks play no part. */
  lemma ShapeSurvivesExactly(lines: seq<EditorLine>)
    requires lines != []
    ensures SameShape(LinesFromDoc(PrintDoc(lines)), lines) <==> forall l :: l in lines ==> PlainImage(l)
  {
    hide RereadAt, RereadRange, PlainImage, PrintDoc, LinesFromDoc, SameShape;
    PrintedDocRereads(lines);
    forall i | 0 <= i < |lines|
      ensures SameLine(lines, i) <==> PlainImage(lines[i])
    {
      LineShape(lines, i);
    }
    RangeShape(lines);
  }

  lemma RangeShape(lines: seq<EditorLine>)
    ensures SameShape(RereadRange(lines, 0, |lines|), lines) <==> forall i :: 0 <= i < |lines| ==> SameLine(lines, i)
  {
    hide RereadRange, SameLine, SameShape;
    if SameShape(RereadRange(lines, 0, |lines|), lines) {
      forall i | 0 <= i < |lines|
        ensures SameLine(lines, i)
      {
        SameLineOfRange(lines, i);
      }
    }
    if forall i :: 0 <= i < |lines| ==> SameLine(lines, i) {
      SameRangeOfLines(lines);
    }
  }

  lemma SameLineOfRange(lines: seq<EditorLine>, i: nat)
    requires i < |lines| && SameShape(RereadRange(lines, 0, |lines|), lines)
    ensures SameLine(lines, i)
  {
    hide RereadAt, RereadRange, Matches;
    RereadRangeLength(lines, 0, |lines|);
    assert RereadRange(lines, 0, |lines|)[i - 0] == RereadAt(lines, i)[0];
  }

  lemma SameRangeOfLines(lines: seq<EditorLine>)
    requires forall i :: 0 <= i < |lines| ==> SameLine(lines, i)
    ensures SameShape(RereadRange(lines, 0, |lines|), lines)
  {
    hide RereadAt, RereadRange, Matches;
    assert forall k :: 0 <= k < |lines| ==> SameLine(lines, k) && |RereadAt(lines, k)| == 1;
    RereadRangeFull(lines, 0, |lines|);
    RereadRangeLength(lines, 0, |lines|);
    var back := RereadRange(lines, 0, |lines|);
    forall i | 0 <= i < |lines|
      ensures Matches(back[i], lines[i])
    {
      assert SameLine(lines, i) && back[i - 0] == RereadAt(lines, i)[0];
    }
  }

  // ---- Styles and the second print ----

  predicate RoundTrippable(line: EditorLine) {
    PlainImage(line) && Good(line.text, line.marks)
  }

  predicate SameStyles(a: EditorLine, b: EditorLine)
    requires a.text == b.text
  {
    forall p :: 0 <= p < |b.text| && b.text[p] != '\n' ==> StylesAt(a.marks, p) == StylesAt(b.marks, p)
  }

  /** Prints alike, apart from the number its ordered list starts with. */
  predicate PrintsAlike(a: EditorLine, b: EditorLine) {
    && a.block == b.block
    && (b.block != Image && b.block != CodeBlock ==> ParagraphJson(a) == ParagraphJson(b))
    && (GroupOf(b.block) in {Single, Quotes} ==> LineToBlockJson(a) == LineToBlockJson(b))
  }

  lemma RereadLineFacts(lines: seq<EditorLine>, i: nat)
    requires i < |lines| && RoundTrippable(lines[i])
    ensures |RereadAt(lines, i)| == 1
    ensures var back := RereadAt(lines, i)[0];
            && PrintsAlike(back, lines[i]) && back.text == lines[i].text
            && (lines[i].block != CodeBlock ==> SameStyles(back, lines[i]))
            && Good(back.text, back.marks)
            && (NewStart(lines, i).Some? ==> back.orderedStart.GetOr(1) == lines[i].orderedStart.GetOr(1))
  {
    hide InlineJson, RereadMarks, StylesAt, Trim;
    InlineJsonRoundTrip(lines[i].text, lines[i].marks);
  }

  predicate AllPrintAlike(a: seq<EditorLine>, b: seq<EditorLine>) {
    && |a| == |b|
    && (forall i :: 0 <= i < |b| ==> PrintsAlike(a[i], b[i]))
    && (forall i :: 0 <= i < |b| && NewStart(b, i).Some? ==> a[i].orderedStart.GetOr(1) == b[i].orderedStart.GetOr(1))
  }

  lemma {:induction false} GroupEndAgrees(a: seq<EditorLine>, b: seq<EditorLine>, i: nat, group: Group)
    requires |a| == |b| && i <= |b| && forall k :: 0 <= k < |b| ==> a[k].block == b[k].block
    ensures GroupEnd(a, i, group) == GroupEnd(b, i, group)
    decreases |b| - i
  {
    if i < |b| {
      GroupEndAgrees(a, b, i + 1, group);
    }
  }

  lemma GroupAgrees(a: seq<EditorLine>, b: seq<EditorLine>, i: nat, j: nat, group: Group)
    requires AllPrintAlike(a, b) && IsGroup(b, i, j, group)
    ensures GroupJson(group, a[i..j]) == GroupJson(group, b[i..j])
  {
    hide ParagraphJson, LineToBlockJson;
    var f := ItemJson(group);
    forall k | 0 <= k < j - i
      ensures f(a[i..j][k]) == f(b[i..j][k])
    {
      assert PrintsAlike(a[i + k], b[i + k]);
    }
    assert MapLines(f, a[i..j]) == MapLines(f, b[i..j]);
    if group == Ordereds {
      assert NewStart(b, i).Some?;
    }
  }

  lemma SingleAgrees(a: seq<EditorLine>, b: seq<EditorLine>, i: nat)
    requires AllPrintAlike(a, b) && i < |b|
    ensures GroupOf(a[i].block) == GroupOf(b[i].block)
    ensures GroupOf(b[i].block) == Single ==> LineToBlockJson(a[i]) == LineToBlockJson(b[i])
  {
    hide ParagraphJson, LineToBlockJson;
    assert PrintsAlike(a[i], b[i]);
  }

  lemma {:induction false} PrintAgrees(a: seq<EditorLine>, b: seq<EditorLine>, i: nat)
    requires AllPrintAlike(a, b) && i <= |b| && AtBlock(b, i)
    ensures PrintFrom(a, i) == PrintFrom(b, i)
    decreases |b| - i
  {
    hide GroupJson, LineToBlockJson, PrintsAlike, NewStart, GroupOf;
    if i < |b| {
      SingleAgrees(a, b, i);
      var group := GroupOf(b[i].block);
      if group == Single {
        PrintAgrees(a, b, i + 1) by { AtBlockNext(b, i); }
      } else {
        GroupEndAgrees(a, b, i + 1, group) by { SameBlocks(a, b); }
        var j := GroupEnd(b, i + 1, group);
        GroupAgrees(a, b, i, j, group);
        PrintAgrees(a, b, j);
      }
    }
  }

  lemma AtBlockNext(lines: seq<EditorLine>, i: nat)
    requires i < |lines| && GroupOf(lines[i].block) == Single
    ensures AtBlock(lines, i + 1)
  {
  }

  lemma SameBlocks(a: seq<EditorLine>, b: seq<EditorLine>)
    requires AllPrintAlike(a, b)
    ensures forall k :: 0 <= k < |b| ==> a[k].block == b[k].block
  {
    forall k | 0 <= k < |b|
      ensures a[k].block == b[k].block
    {
      assert PrintsAlike(a[k], b[k]);
    }
  }

  /** The document round trip. */
  lemma DocumentRoundTrip(lines: seq<EditorLine>)
    requires lines != [] && forall l :: l in lines ==> RoundTrippable(l)
    ensures var back := LinesFromDoc(PrintDoc(lines));
            && SameShape(back, lines)
            && (forall i :: 0 <= i < |lines| ==>
                  Good(back[i].text, back[i].marks) && (lines[i].block != CodeBlock ==> SameStyles(back[i], lines[i])))
            && PrintDoc(back) == PrintDoc(lines)
  {
    hide RereadAt, RereadRange, PlainImage, PrintFrom, Blocks, Good, SameStyles, PrintsAlike;
    ShapeSurvivesExactly(lines);
    PrintedDocRereads(lines);
    RereadRangeLength(lines, 0, |lines|);
    var back := LinesFromDoc(PrintDoc(lines));
    forall i | 0 <= i < |lines|
      ensures PrintsAlike(back[i], lines[i])
      ensures Good(back[i].text, back[i].marks) && (lines[i].block != CodeBlock ==> SameStyles(back[i], lines[i]))
      ensures NewStart(lines, i).Some? ==> back[i].orderedStart.GetOr(1) == lines[i].orderedStart.GetOr(1)
    {
      RereadLineFacts(lines, i);
    }
    PrintAgrees(back, lines, 0);
  }
}
