/** Marks that cover something: which loads and edits keep them, and what a run of the editor can then
    save and load without changing a style. */
module GoodMarks {
  import opened Basics
  import opened TipTap
  import opened InlineRoundTrip
  import opened EditorLines
  import opened EditorSteps
  import DocRoundTrip
  import LoadedLines

  predicate GoodLine(line: EditorLine) {
    Good(line.text, line.marks)
  }

  predicate AllGood(lines: Lines) {
    forall l :: l in lines ==> GoodLine(l)
  }

  // ---- Edits ----

  lemma SpliceGood(lines: Lines, i: nat, j: nat, mid: Lines)
    requires i <= j <= |lines| && AllGood(lines) && AllGood(mid)
    ensures AllGood(Splice(lines, i, j, mid))
  {
    hide GoodLine;
  }

  lemma {:induction false} ShiftMarksGood(text: string, marks: seq<EditorMark>, start: nat, end: nat, inserted: string)
    requires start <= end <= |text| && Good(text, marks)
    ensures Good(ReplaceIn(text, start, end, inserted), ShiftMarks(marks, start, end, |inserted|))
  {
    if marks != [] {
      ShiftMarksGood(text, marks[1..], start, end, inserted);
    }
  }

  lemma {:induction false} TailMarksGood(text: string, marks: seq<EditorMark>, col: nat)
    requires col <= |text| && Good(text, marks)
    ensures Good(text[col..], TailMarks(marks, col))
  {
    if marks != [] {
      TailMarksGood(text, marks[1..], col);
    }
  }

  lemma HeadMarksGood(text: string, marks: seq<EditorMark>, col: nat, more: string)
    requires col <= |text| && Good(text, marks)
    ensures Good(text[..col] + more, MarksUpTo(marks, col))
  {
    MarksUpToInside(marks, col);
  }

  lemma ReplacedGood(lines: Lines, start: nat, end: nat, inserted: string)
    requires lines != [] && AllMarksInside(lines) && start <= end <= |Content(lines)| && AllGood(lines)
    ensures AllGood(ReplaceBetween(lines, start, end, inserted))
  {
    hide Locate, Column, Content, LineStart, AllMarksInside, ShiftMarks, MarksUpTo, Good;
    LocateMonotone(lines, start, end);
    LocateExact(lines, start);
    LocateExact(lines, end);
    var sl, sc, el, ec := Locate(lines, start), Column(lines, start), Locate(lines, end), Column(lines, end);
    var line := ReplacedLine(lines, sl, sc, el, ec, inserted);
    var was := lines[sl];
    assert GoodLine(was) by { assert was in lines; }
    if sl == el {
      ShiftMarksGood(was.text, was.marks, sc, ec, inserted);
    } else {
      HeadMarksGood(was.text, was.marks, sc, inserted + lines[el].text[ec..]);
      Associative(was.text[..sc], inserted, lines[el].text[ec..]);
    }
    SpliceGood(lines, sl, el + 1, [line]);
  }

  lemma SubsetGood(lines: Lines, some: Lines)
    requires AllGood(lines) && forall l :: l in some ==> l in lines || l == DEFAULT_LINE
    ensures AllGood(some)
  {
    assert GoodLine(DEFAULT_LINE);
  }

  lemma ImagesGoneGood(lines: Lines, start: nat, end: nat)
    requires lines != [] && start <= end && AllGood(lines)
    ensures AllGood(WithoutImagesBetween(lines, start, end))
  {
    hide Locate, NonImages, AllGood;
    LocateMonotone(lines, start, end);
    NonImagesMembers(lines[Locate(lines, start)..Locate(lines, end) + 1]);
    SubsetGood(lines, WithoutImagesBetween(lines, start, end));
  }

  lemma SplitGood(lines: Lines, ix: nat, col: nat)
    requires ix < |lines| && col <= |lines[ix].text| && AllGood(lines)
    ensures AllGood(SplitLines(lines, ix, col))
  {
    hide MarksUpTo, TailMarks, Good;
    var line := lines[ix];
    assert GoodLine(line) by { assert line in lines; }
    HeadMarksGood(line.text, line.marks, col, "");
    HeadMarksGood(line.text, line.marks, col, "\n" + line.text[col..]);
    TailMarksGood(line.text, line.marks, col);
    NothingAdded(line.text[..col]);
    Associative(line.text[..col], "\n", line.text[col..]);
    assert GoodLine(DEFAULT_LINE) by { DefaultGood(); }
  }

  lemma DefaultGood()
    ensures GoodLine(DEFAULT_LINE)
  {
  }

  lemma BreakGood(lines: Lines, ix: nat, col: nat)
    requires ix < |lines| && col <= |lines[ix].text| && MarksInside(lines[ix]) && AllGood(lines)
    ensures AllGood(lines[ix := BreakInLine(lines[ix], col)])
  {
    hide ShiftMarks, Good;
    var line := lines[ix];
    assert GoodLine(line) by { assert line in lines; }
    ShiftMarksGood(line.text, line.marks, col, col, "\n");
    assert ReplaceIn(line.text, col, col, "\n") == BreakInLine(line, col).text;
  }

  lemma JoinedGood(prev: EditorLine, tail: EditorLine)
    requires GoodLine(prev) && GoodLine(tail)
    ensures GoodLine(Joined(prev, tail))
  {
    var moved := Appended(tail.marks, |prev.text|);
    forall m | m in moved
      ensures m.start < m.end <= |prev.text + tail.text|
    {
      var i :| 0 <= i < |moved| && moved[i] == m;
      assert tail.marks[i] in tail.marks;
    }
  }

  lemma ListBackspacedGood(lines: Lines, ix: nat)
    requires ix < |lines| && AllGood(lines)
    ensures AllGood(ListLineBackspaced(lines, ix))
  {
    hide Good, Joined;
    assert GoodLine(lines[ix]) by { assert lines[ix] in lines; }
    if ix > 0 {
      assert GoodLine(lines[ix - 1]) by { assert lines[ix - 1] in lines; }
      JoinedGood(lines[ix - 1], lines[ix]);
    }
  }

  lemma MarkedGood(edit: MarkEdit, line: EditorLine, start: nat, end: nat)
    requires GoodLine(line) && end <= |line.text|
    ensures GoodLine(EditMarks(edit, line, start, end))
  {
  }

  lemma SelectionGood(edit: MarkEdit, lines: Lines, sl: nat, sc: nat, el: nat, ec: nat)
    requires sl <= el < |lines| && ec <= |lines[el].text| && AllGood(lines)
    ensures AllGood(OverSelection(edit, lines, sl, sc, el, ec))
  {
    hide GoodLine, EditMarks;
    forall i | 0 <= i < |lines|
      ensures GoodLine(OverSelection(edit, lines, sl, sc, el, ec)[i])
    {
      assert lines[i] in lines;
      MarkedGood(edit, lines[i], SelStart(i, sl, sc), SelEnd(lines, i, el, ec));
    }
  }

  lemma SameMarksGood(before: Lines, after: Lines)
    requires |after| == |before| && AllGood(before)
    requires forall i :: 0 <= i < |after| ==> after[i].text == before[i].text && after[i].marks == before[i].marks
    ensures AllGood(after)
  {
    hide Good;
    forall i | 0 <= i < |after|
      ensures GoodLine(after[i])
    {
      assert before[i] in before;
    }
  }

  lemma InsertGood(lines: Lines, ix: nat, col: nat, src: string)
    requires ix < |lines| && col <= |lines[ix].text| && AllGood(lines)
    ensures AllGood(InsertImage(lines, ix, col, src).0)
  {
    hide MarksUpTo;
    var line := lines[ix];
    assert GoodLine(line) by { assert line in lines; }
    HeadMarksGood(line.text, line.marks, col, "");
    NothingAdded(line.text[..col]);
  }

  // ---- Documents ----

  /** A text node without text that carries a mark the editor knows. */
  predicate EmptyMarked(node: Node) {
    node.kind == "text" && node.text.GetOr("") == "" &&
    exists m :: m in node.marks.GetOr([]) && KindOfMark(m.kind).Some?
  }

  predicate CleanInline(content: seq<Node>) {
    forall n :: n in content ==> !EmptyMarked(n)
  }

  /** No mark that is read stands over nothing; code blocks and blocks that are passed over are free. */
  predicate CleanBlock(node: Node)
    decreases node, 2
  {
    if node.kind in {"paragraph", "heading"} then CleanInline(node.content)
    else if node.kind == "codeBlock" || node.kind == "image" then true
    else if node.kind in {"bulletList", "orderedList"} then CleanItems(node.content)
    else if node.kind == "taskList" then CleanTasks(node.content)
    else CleanBlocks(node.content)
  }

  predicate CleanBlocks(nodes: seq<Node>)
    decreases nodes, 1
  {
    nodes == [] || (CleanBlock(nodes[0]) && CleanBlocks(nodes[1..]))
  }

  predicate CleanItems(items: seq<Node>)
    decreases items, 1
  {
    items == [] || ((items[0].kind == "listItem" ==> CleanBlocks(items[0].content)) && CleanItems(items[1..]))
  }

  predicate CleanParagraphs(blocks: seq<Node>) {
    forall b :: b in blocks && b.kind == "paragraph" ==> CleanInline(b.content)
  }

  predicate CleanTasks(items: seq<Node>) {
    forall t :: t in items && t.kind == "taskItem" ==> CleanParagraphs(t.content)
  }

  predicate NonEmptyMarks(marks: seq<EditorMark>) {
    forall m :: m in marks ==> m.start < m.end
  }

  lemma {:induction false} MarksOverExactly(marks: seq<Mark>, start: nat, end: nat)
    requires start <= end
    ensures NonEmptyMarks(MarksOver(marks, start, end)) <==>
            start < end || forall m :: m in marks ==> KindOfMark(m.kind).None?
  {
    hide KindOfMark, HrefOf;
    if marks != [] {
      MarksOverExactly(marks[1..], start, end);
    }
  }

  lemma NodeMarksExactly(node: Node, offset: nat)
    ensures NonEmptyMarks(NodeMarks(node, offset)) <==> !EmptyMarked(node)
  {
    hide MarksOver, KindOfMark, NonEmptyMarks;
    if node.kind == "text" {
      MarksOverExactly(node.marks.GetOr([]), offset, offset + |NodeText(node)|);
    } else {
      assert NonEmptyMarks([]) by { NoneEmpty(); }
    }
  }

  lemma NoneEmpty()
    ensures NonEmptyMarks([])
  {
  }

  lemma NonEmptyAppend(a: seq<EditorMark>, b: seq<EditorMark>)
    ensures NonEmptyMarks(a + b) <==> NonEmptyMarks(a) && NonEmptyMarks(b)
  {
    assert forall m :: m in a || m in b ==> m in a + b;
  }

  lemma CleanCons(content: seq<Node>)
    requires content != []
    ensures CleanInline(content) <==> !EmptyMarked(content[0]) && CleanInline(content[1..])
  {
    hide EmptyMarked;
    assert content == [content[0]] + content[1..];
  }

  lemma {:induction false} InlineExactly(content: seq<Node>, offset: nat)
    ensures NonEmptyMarks(InlineMarks(content, offset)) <==> CleanInline(content)
    decreases |content|
  {
    hide NodeMarks, NonEmptyMarks, EmptyMarked, CleanInline, NodeText;
    if content == [] {
      NoneEmpty();
      NothingClean();
    } else {
      var next := offset + |NodeText(content[0])|;
      InlineExactly(content[1..], next);
      NodeMarksExactly(content[0], offset);
      NonEmptyAppend(NodeMarks(content[0], offset), InlineMarks(content[1..], next));
      CleanCons(content);
    }
  }

  lemma NothingClean()
    ensures CleanInline([])
  {
  }

  lemma GoodTextLine(block: BlockKind, chunk: seq<Node>, start: Option<nat>)
    ensures GoodLine(TextLine(block, chunk, start)) <==> CleanInline(chunk)
  {
    hide InlineMarks, InlineText, CleanInline;
    InlineExactly(chunk, 0);
    LoadedLines.InlineMarksInside(chunk, 0);
  }

  lemma {:induction false} MixedExactly(children: seq<Node>, i: nat, block: BlockKind, start: Option<nat>)
    requires i <= |children|
    ensures AllGood(MixedFrom(children, i, block, start)) <==> CleanInline(children[i..])
    decreases |children| - i
  {
    hide GoodLine, TextLine, EmptyMarked;
    if i < |children| {
      if IsImage(children[i]) {
        MixedExactly(children, i + 1, block, start);
        ImageIsGood(children[i]);
        assert children[i..] == [children[i]] + children[i + 1..];
      } else {
        var j := ChunkEnd(children, i);
        GoodTextLine(block, children[i..j], start);
        MixedExactly(children, j, block, start);
        assert children[i..] == children[i..j] + children[j..];
      }
    }
  }

  lemma ImageIsGood(node: Node)
    ensures AllGood(ImageLines(node.attrs)) && (IsImage(node) ==> !EmptyMarked(node))
  {
    hide ImageSrc, KindOfMark;
  }

  lemma MixedAllExactly(children: seq<Node>, block: BlockKind, start: Option<nat>)
    ensures AllGood(Mixed(children, block, start)) <==> CleanInline(children)
  {
    hide MixedFrom;
    MixedExactly(children, 0, block, start);
    assert children[0..] == children;
  }

  lemma AppendGood(a: Lines, b: Lines)
    ensures AllGood(a + b) <==> AllGood(a) && AllGood(b)
  {
    hide GoodLine;
    assert forall l :: l in a || l in b ==> l in a + b;
  }

  lemma {:induction false} BlockExactly(node: Node)
    ensures AllGood(Block(node)) <==> CleanBlock(node)
    decreases node, 2
  {
    hide AllGood, Mixed, TextLine, ImageLines, Items, Tasks, Quoted, Blocks, CleanInline, CleanItems, CleanTasks, CleanBlocks,
         InlineText;
    MixedAllExactly(node.content, Paragraph, None);
    LeafExactly(node);
    BlocksExactly(node.content);
    QuotedExactly(node.content);
    ItemsExactly(node.content, BulletItem, None);
    ItemsExactly(node.content, OrderedItem, ListStart(node, OrderedItem));
    TasksExactly(node.content);
  }

  lemma LeafExactly(node: Node)
    ensures AllGood(ImageLines(node.attrs))
    ensures AllGood([EditorLine(CodeBlock, InlineText(node.content), [], None, None)])
    ensures AllGood([TextLine(Heading(HeadingLevel(node.attrs)), node.content, None)]) <==> CleanInline(node.content)
  {
    hide TextLine, ImageSrc, CleanInline;
    GoodTextLine(Heading(HeadingLevel(node.attrs)), node.content, None);
    var line := TextLine(Heading(HeadingLevel(node.attrs)), node.content, None);
    assert line in [line];
  }

  lemma {:induction false} BlocksExactly(nodes: seq<Node>)
    ensures AllGood(Blocks(nodes)) <==> CleanBlocks(nodes)
    decreases nodes, 1
  {
    hide Block, CleanBlock, AllGood;
    if nodes == [] {
      NothingGood();
    } else {
      BlockExactly(nodes[0]);
      BlocksExactly(nodes[1..]);
      AppendGood(Block(nodes[0]), Blocks(nodes[1..]));
    }
  }

  lemma NothingGood()
    ensures AllGood([])
  {
  }

  lemma {:induction false} QuotedExactly(nodes: seq<Node>)
    ensures AllGood(Quoted(nodes)) <==> CleanBlocks(nodes)
    decreases nodes, 1
  {
    hide Block, Mixed, AllGood, CleanInline;
    if nodes == [] {
      NothingGood();
    } else {
      BlockExactly(nodes[0]);
      MixedAllExactly(nodes[0].content, Blockquote, None);
      QuotedExactly(nodes[1..]);
      AppendGood(if nodes[0].kind == "paragraph" then Mixed(nodes[0].content, Blockquote, None) else Block(nodes[0]),
                 Quoted(nodes[1..]));
    }
  }

  lemma {:induction false} ItemBlocksExactly(blocks: seq<Node>, kind: BlockKind, start: Option<nat>)
    ensures AllGood(ItemBlocks(blocks, kind, start).0) <==> CleanBlocks(blocks)
    decreases blocks, 1
  {
    hide Block, Mixed, AllGood, CleanInline;
    if blocks == [] {
      NothingGood();
    } else if blocks[0].kind == "paragraph" {
      MixedAllExactly(blocks[0].content, kind, start);
      ItemBlocksExactly(blocks[1..], kind, None);
      AppendGood(Mixed(blocks[0].content, kind, start), ItemBlocks(blocks[1..], kind, None).0);
    } else {
      BlockExactly(blocks[0]);
      ItemBlocksExactly(blocks[1..], kind, start);
      AppendGood(Block(blocks[0]), ItemBlocks(blocks[1..], kind, start).0);
    }
  }

  lemma {:induction false} ItemsExactly(items: seq<Node>, kind: BlockKind, start: Option<nat>)
    ensures AllGood(Items(items, kind, start)) <==> CleanItems(items)
    decreases items, 1
  {
    hide ItemBlocks, AllGood, CleanBlocks;
    if items == [] {
      NothingGood();
    } else if items[0].kind == "listItem" {
      var item := ItemBlocks(items[0].content, kind, start);
      ItemBlocksExactly(items[0].content, kind, start);
      ItemsExactly(items[1..], kind, item.1);
      AppendGood(item.0, Items(items[1..], kind, item.1));
    } else {
      ItemsExactly(items[1..], kind, start);
    }
  }

  lemma {:induction false} TaskBlocksExactly(blocks: seq<Node>, checked: bool)
    ensures AllGood(TaskBlocks(blocks, checked)) <==> CleanParagraphs(blocks)
  {
    hide Mixed, AllGood, CleanInline;
    if blocks == [] {
      NothingGood();
    } else {
      var own := if blocks[0].kind == "paragraph" then Mixed(blocks[0].content, TaskItem(checked), None) else [];
      MixedAllExactly(blocks[0].content, TaskItem(checked), None);
      NothingGood();
      TaskBlocksExactly(blocks[1..], checked);
      AppendGood(own, TaskBlocks(blocks[1..], checked));
    }
  }

  lemma {:induction false} TasksExactly(items: seq<Node>)
    ensures AllGood(Tasks(items)) <==> CleanTasks(items)
  {
    hide TaskBlocks, AllGood, CleanParagraphs;
    if items == [] {
      NothingGood();
    } else {
      var checked := Attr(items[0].attrs, "checked") == Bool(true);
      var own := if items[0].kind == "taskItem" then TaskBlocks(items[0].content, checked) else [];
      TaskBlocksExactly(items[0].content, checked);
      NothingGood();
      TasksExactly(items[1..]);
      AppendGood(own, Tasks(items[1..]));
    }
  }

  /** A loaded document has no mark over nothing exactly when no text node without text carries one. */
  lemma LoadedGoodExactly(doc: Node)
    ensures AllGood(LinesFromDoc(doc)) <==> CleanBlocks(doc.content)
  {
    BlocksExactly(doc.content);
  }

  // ---- Runs ----

  /** Only loading can bring in a mark over nothing. */
  predicate KeepsMarks(command: Command) {
    command.SetDoc? && command.doc.Some? ==> CleanBlocks(command.doc.value.content)
  }

  lemma ReplacedKeepsMarks(s: Snapshot, from: nat, to: nat, text: string)
    requires Sane(s) && from <= to && AllGood(s.lines)
    ensures AllGood(Replaced(s, from, to, text).lines)
  {
    hide Content, LineStart, Locate, Column, AllMarksInside, AllGood, WithoutImages, HasImage, ReplaceLines;
    var start, end := Min(from, |Content(s.lines)|), Min(to, |Content(s.lines)|);
    LocateExact(s.lines, start);
    ImagesGoneGood(s.lines, start, end);
    ReplacedGood(s.lines, start, end, text);
  }

  lemma DeletionsKeepMarks(s: Snapshot, offset: nat)
    requires Sane(s) && AllGood(s.lines)
    ensures offset <= Caret(s) ==> AllGood(Backspaced(s, offset).lines)
    ensures Caret(s) <= offset ==> AllGood(Deleted(s, offset).lines)
  {
    hide Content, LineStart, Locate, Column, AllMarksInside, AllGood, Replaced, ListLineBackspaced, IsListBlock;
    var ix := CaretLine(s);
    forall i | 0 <= i < |s.lines|
      ensures AllGood(LineRemoved(s.lines, i))
    {
      SubsetGood(s.lines, LineRemoved(s.lines, i));
    }
    ListBackspacedGood(s.lines, ix);
    if offset <= Caret(s) {
      ReplacedKeepsMarks(s, if s.selStart == s.selEnd then offset else s.selStart, s.selEnd, "");
    }
    if Caret(s) <= offset {
      ReplacedKeepsMarks(s, s.selStart, if s.selStart == s.selEnd then offset else s.selEnd, "");
    }
  }

  lemma RestylingKeepsMarks(s: Snapshot, edit: MarkEdit, kind: BlockKind)
    requires Sane(s) && AllGood(s.lines)
    ensures AllGood(Marked(s, edit).lines) && AllGood(Blocked(s, kind).lines) && AllGood(CodeToggled(s).lines)
  {
    hide Content, LineStart, Locate, Column, AllMarksInside, AllGood, OverSelection;
    LocateMonotone(s.lines, s.selStart, s.selEnd);
    LocateExact(s.lines, s.selEnd);
    SelectionGood(edit, s.lines, Locate(s.lines, s.selStart), Column(s.lines, s.selStart),
                  Locate(s.lines, s.selEnd), Column(s.lines, s.selEnd));
    SetBlocksKeeps(s.lines, Locate(s.lines, s.selStart), Locate(s.lines, s.selEnd), kind);
    SameMarksGood(s.lines, Blocked(s, kind).lines);
    SameMarksGood(s.lines, CodeToggled(s).lines);
  }

  lemma InsertionsKeepMarks(s: Snapshot, src: string)
    requires Sane(s) && AllGood(s.lines)
    ensures AllGood(Parted(s).lines) && AllGood(Broken(s).lines) && AllGood(Placed(s, src).lines)
  {
    hide Content, LineStart, Locate, Column, MarksInside, AllGood, SplitLines, BreakInLine, InsertImage;
    var ix, col := CaretLine(s), Column(s.lines, Caret(s));
    SplitGood(s.lines, ix, col);
    BreakGood(s.lines, ix, col);
    InsertGood(s.lines, ix, col, src);
  }

  lemma OpeningKeepsMarks(s: Snapshot, doc: Option<Node>)
    ensures AllGood(Opened(s, doc).lines) <==> KeepsMarks(SetDoc(doc))
  {
    hide AllGood, LinesFromDoc, Content;
    assert AllGood([DEFAULT_LINE]) by { OneDefaultGood(); }
    NothingGood();
    if doc.Some? {
      LoadedGoodExactly(doc.value);
    }
  }

  lemma OneDefaultGood()
    ensures AllGood([DEFAULT_LINE])
  {
  }

  /** Every edit keeps all marks over something; loading does exactly when the document is clean. */
  lemma StepKeepsMarks(s: Snapshot, command: Command)
    requires Sane(s) && AllGood(s.lines)
    ensures AllGood(Step(s, command).lines) <==> KeepsMarks(command)
  {
    hide Content, LineStart, Locate, Column, AllMarksInside, AllGood, Replaced, Parted, Broken, Backspaced, Deleted, Marked,
         Placed, Blocked, CodeToggled, Opened, CleanBlocks;
    match command
    case TypeOrPaste(text) => ReplacedKeepsMarks(s, s.selStart, s.selEnd, text);
    case Backspace(previous) => DeletionsKeepMarks(s, previous);
    case Delete(next) => DeletionsKeepMarks(s, next);
    case Enter => InsertionsKeepMarks(s, "");
    case ShiftEnter => InsertionsKeepMarks(s, "");
    case PlaceImage(src) => InsertionsKeepMarks(s, src);
    case MarkSelection(edit) => RestylingKeepsMarks(s, edit, Paragraph);
    case SetBlock(kind) => RestylingKeepsMarks(s, DropLink, kind);
    case ToggleCodeBlock => RestylingKeepsMarks(s, DropLink, Paragraph);
    case SetDoc(doc) => OpeningKeepsMarks(s, doc);
    case _ =>
  }

  lemma {:induction false} CleanRunIsGood(commands: seq<Command>)
    requires forall c :: c in commands ==> KeepsMarks(c)
    ensures AllGood(AfterAll(commands).lines)
  {
    hide Step, KeepsMarks, AllGood;
    if commands == [] {
      OneDefaultGood();
    } else {
      CleanRunIsGood(commands[..|commands| - 1]);
      StepKeepsMarks(AfterAll(commands[..|commands| - 1]), commands[|commands| - 1]);
    }
  }

  /** After any run whose loaded documents are clean and whose commands left the images as they are,
      saving and loading gives back every block, text, image and style, and saving again the identical
      document. */
  lemma RunSurvivesSaving(commands: seq<Command>)
    requires AllKept(commands) && forall c :: c in commands ==> KeepsMarks(c)
    ensures var lines := AfterAll(commands).lines;
            var back := LinesFromDoc(PrintDoc(lines));
            && DocRoundTrip.SameShape(back, lines)
            && (forall i :: 0 <= i < |lines| && lines[i].block != CodeBlock ==>
                  back[i].text == lines[i].text && DocRoundTrip.SameStyles(back[i], lines[i]))
            && PrintDoc(back) == PrintDoc(lines)
  {
    hide PrintDoc, LinesFromDoc, AllKept, KeepsMarks, AfterAll, DocRoundTrip.SameStyles, DocRoundTrip.PlainImage, Good;
    KeptRunIsPlain(commands);
    CleanRunIsGood(commands);
    var lines := AfterAll(commands).lines;
    assert forall l :: l in lines ==> GoodLine(l) && DocRoundTrip.RoundTrippable(l);
    DocRoundTrip.DocumentRoundTrip(lines);
    assert forall i :: 0 <= i < |lines| ==> DocRoundTrip.Matches(LinesFromDoc(PrintDoc(lines))[i], lines[i]);
  }
}
