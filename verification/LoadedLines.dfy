/** What loading a document guarantees about its lines, and which edits keep images loadable. */
module LoadedLines {
  import opened Basics
  import opened TipTap
  import opened EditorLines
  import DocRoundTrip

  /** The line survives saving and loading: marks in range, and an image is a source and nothing else. */
  predicate Loaded(line: EditorLine) {
    MarksInside(line) && DocRoundTrip.PlainImage(line)
  }

  predicate AllLoaded(lines: Lines) {
    forall l :: l in lines ==> Loaded(l)
  }

  predicate AllPlain(lines: Lines) {
    forall l :: l in lines ==> DocRoundTrip.PlainImage(l)
  }

  lemma SrcIsTrimmed(attrs: Option<Attrs>)
    ensures ImageSrc(attrs).Some? ==> ImageSrc(attrs).value != "" && Trim(ImageSrc(attrs).value) == ImageSrc(attrs).value
  {
    hide Trim;
    if SrcUnder(attrs, "src").Some? {
      DocRoundTrip.TrimIsIdempotent(Attr(attrs, "src").s);
    } else if SrcUnder(attrs, "url").Some? {
      DocRoundTrip.TrimIsIdempotent(Attr(attrs, "url").s);
    } else if SrcUnder(attrs, "href").Some? {
      DocRoundTrip.TrimIsIdempotent(Attr(attrs, "href").s);
    }
  }

  // ---- Parsed documents ----

  lemma {:induction false} InlineMarksInside(content: seq<Node>, offset: nat)
    ensures forall m :: m in InlineMarks(content, offset) ==> offset <= m.start <= m.end <= offset + |InlineText(content)|
    decreases |content|
  {
    hide MarksOver, NodeText;
    if content != [] {
      MarksOverRange(content[0].marks.GetOr([]), offset, offset + |NodeText(content[0])|);
      InlineMarksInside(content[1..], offset + |NodeText(content[0])|);
    }
  }

  lemma {:induction false} MarksOverRange(marks: seq<Mark>, start: nat, end: nat)
    ensures forall m :: m in MarksOver(marks, start, end) ==> m.start == start && m.end == end
  {
    if marks != [] {
      MarksOverRange(marks[1..], start, end);
    }
  }

  lemma {:induction false} MixedInside(children: seq<Node>, i: nat, block: BlockKind, start: Option<nat>)
    requires i <= |children| && block != Image
    ensures AllLoaded(MixedFrom(children, i, block, start))
    decreases |children| - i
  {
    hide InlineMarks, InlineText, ImageSrc, Trim;
    if i < |children| {
      if IsImage(children[i]) {
        SrcIsTrimmed(children[i].attrs);
        MixedInside(children, i + 1, block, start);
      } else {
        var j := ChunkEnd(children, i);
        InlineMarksInside(children[i..j], 0);
        MixedInside(children, j, block, start);
      }
    }
  }

  lemma MixedAllInside(children: seq<Node>, block: BlockKind, start: Option<nat>)
    requires block != Image
    ensures AllLoaded(Mixed(children, block, start))
  {
    hide MixedFrom;
    MixedInside(children, 0, block, start);
  }

  lemma {:induction false} BlockInside(node: Node)
    ensures AllLoaded(Block(node))
    decreases node, 2
  {
    hide Mixed, MixedFrom, InlineMarks, InlineText, ImageSrc, AllLoaded, Items, Tasks, Quoted, Blocks;
    MixedAllInside(node.content, Paragraph, None);
    InlineMarksInside(node.content, 0);
    BlocksInside(node.content);
    QuotedInside(node.content);
    ItemsInside(node.content, BulletItem, None);
    ItemsInside(node.content, OrderedItem, ListStart(node, OrderedItem));
    TasksInside(node.content);
    LeafInside(node);
  }

  /** Lines made from a node without looking at nested blocks. */
  lemma LeafInside(node: Node)
    ensures AllLoaded(ImageLines(node.attrs))
    ensures AllLoaded([EditorLine(CodeBlock, InlineText(node.content), [], None, None)])
    ensures AllLoaded([TextLine(Heading(HeadingLevel(node.attrs)), node.content, None)])
  {
    hide InlineMarks, InlineText, ImageSrc, Trim;
    SrcIsTrimmed(node.attrs);
    InlineMarksInside(node.content, 0);
  }

  lemma {:induction false} BlocksInside(nodes: seq<Node>)
    ensures AllLoaded(Blocks(nodes))
    decreases nodes, 1
  {
    hide Block, Loaded;
    if nodes != [] {
      BlockInside(nodes[0]);
      BlocksInside(nodes[1..]);
    }
  }

  lemma {:induction false} QuotedInside(nodes: seq<Node>)
    ensures AllLoaded(Quoted(nodes))
    decreases nodes, 1
  {
    hide Block, Mixed, Loaded;
    if nodes != [] {
      BlockInside(nodes[0]);
      MixedAllInside(nodes[0].content, Blockquote, None);
      QuotedInside(nodes[1..]);
    }
  }

  lemma {:induction false} ItemBlocksInside(blocks: seq<Node>, kind: BlockKind, start: Option<nat>)
    requires kind != Image
    ensures AllLoaded(ItemBlocks(blocks, kind, start).0)
    decreases blocks, 1
  {
    hide Block, Mixed, Loaded;
    if blocks != [] {
      BlockInside(blocks[0]);
      MixedAllInside(blocks[0].content, kind, start);
      ItemBlocksInside(blocks[1..], kind, None);
      ItemBlocksInside(blocks[1..], kind, start);
    }
  }

  lemma {:induction false} ItemsInside(items: seq<Node>, kind: BlockKind, start: Option<nat>)
    requires kind != Image
    ensures AllLoaded(Items(items, kind, start))
    decreases items, 1
  {
    hide ItemBlocks, Loaded;
    if items != [] {
      ItemBlocksInside(items[0].content, kind, start);
      ItemsInside(items[1..], kind, ItemBlocks(items[0].content, kind, start).1);
      ItemsInside(items[1..], kind, start);
    }
  }

  lemma {:induction false} TaskBlocksInside(blocks: seq<Node>, checked: bool)
    ensures AllLoaded(TaskBlocks(blocks, checked))
  {
    hide Mixed, Loaded;
    if blocks != [] {
      MixedAllInside(blocks[0].content, TaskItem(checked), None);
      TaskBlocksInside(blocks[1..], checked);
    }
  }

  lemma {:induction false} TasksInside(items: seq<Node>)
    ensures AllLoaded(Tasks(items))
  {
    hide TaskBlocks, Loaded;
    if items != [] {
      TaskBlocksInside(items[0].content, Attr(items[0].attrs, "checked") == Bool(true));
      TasksInside(items[1..]);
    }
  }

  /** Every parsed document has its marks inside its lines and plain images only. */
  lemma DocIsLoaded(doc: Node)
    ensures AllMarksInside(LinesFromDoc(doc)) && AllPlain(LinesFromDoc(doc))
  {
    hide Blocks, MarksInside, DocRoundTrip.PlainImage;
    BlocksInside(doc.content);
    assert forall l :: l in LinesFromDoc(doc) ==> Loaded(l);
  }

  lemma OpenedPlain(doc: Option<Node>)
    ensures AllPlain(OrDefault(if doc.Some? then LinesFromDoc(doc.value) else []))
  {
    hide LinesFromDoc, DocRoundTrip.PlainImage;
    if doc.Some? {
      DocIsLoaded(doc.value);
    }
    DefaultIsPlain();
  }

  // ---- Edits ----

  lemma SplicePlain(lines: Lines, i: nat, j: nat, mid: Lines)
    requires i <= j <= |lines| && AllPlain(lines) && AllPlain(mid)
    ensures AllPlain(Splice(lines, i, j, mid))
  {
    hide DocRoundTrip.PlainImage;
  }

  lemma WithoutImagesPlain(lines: Lines, start: nat, end: nat)
    requires lines != [] && start <= end && AllPlain(lines)
    ensures AllPlain(WithoutImagesBetween(lines, start, end))
  {
    hide DocRoundTrip.PlainImage, NonImages, Locate;
    LocateMonotone(lines, start, end);
    var sl, el := Locate(lines, start), Locate(lines, end);
    NonImagesMembers(lines[sl..el + 1]);
    SplicePlain(lines, sl, el + 1, NonImages(lines[sl..el + 1]));
    DefaultIsPlain();
  }

  lemma DefaultIsPlain()
    ensures DocRoundTrip.PlainImage(DEFAULT_LINE)
  {
  }

  lemma RemovedPlain(lines: Lines, ix: nat)
    requires ix < |lines| && AllPlain(lines)
    ensures AllPlain(LineRemoved(lines, ix))
  {
    hide DocRoundTrip.PlainImage;
    SplicePlain(lines, ix, ix + 1, []);
    assert lines[..ix] + lines[ix + 1..] == Splice(lines, ix, ix + 1, []);
    DefaultIsPlain();
  }

  lemma ReplacedPlain(lines: Lines, start: nat, end: nat, inserted: string)
    requires lines != [] && AllMarksInside(lines) && start <= end <= |Content(lines)| && AllPlain(lines)
    requires lines[Locate(lines, start)].block != Image
    ensures AllPlain(ReplaceBetween(lines, start, end, inserted))
  {
    hide DocRoundTrip.PlainImage, Locate, Column, Content;
    LocateMonotone(lines, start, end);
    LocateExact(lines, start);
    LocateExact(lines, end);
    var sl, sc, el, ec := Locate(lines, start), Column(lines, start), Locate(lines, end), Column(lines, end);
    var line := ReplacedLine(lines, sl, sc, el, ec, inserted);
    TextIsPlain(line);
    SplicePlain(lines, sl, el + 1, [line]);
  }

  /** Neither outcome of a replacement spoils an image. */
  lemma ReplacementPlain(lines: Lines, start: nat, end: nat, newText: string)
    requires lines != [] && AllMarksInside(lines) && start <= end <= |Content(lines)|
    ensures AllPlain(lines) ==> AllPlain(WithoutImagesBetween(lines, start, end))
    ensures AllPlain(lines) && lines[Locate(lines, start)].block != Image ==>
              AllPlain(ReplaceBetween(lines, start, end, newText))
  {
    hide *;
    if AllPlain(lines) {
      WithoutImagesPlain(lines, start, end);
      if lines[Locate(lines, start)].block != Image {
        ReplacedPlain(lines, start, end, newText);
      }
    }
  }

  lemma TextIsPlain(line: EditorLine)
    requires line.block != Image
    ensures DocRoundTrip.PlainImage(line)
  {
  }

  lemma SplitPlain(lines: Lines, ix: nat, col: nat)
    requires ix < |lines| && col <= |lines[ix].text| && AllPlain(lines)
    ensures AllPlain(SplitLines(lines, ix, col))
  {
    hide MarksUpTo, TailMarks;
    var line := lines[ix];
    if line.block == Image {
      SplicePlain(lines, ix + 1, ix + 1, [DEFAULT_LINE]);
    } else if IsListBlock(line.block) && line.text == "" {
      SplicePlain(lines, ix, ix + 1, [AsParagraph(line)]);
    } else if line.block == CodeBlock {
      SplicePlain(lines, ix, ix + 1,
                  [line.(text := line.text[..col] + "\n" + line.text[col..], marks := MarksUpTo(line.marks, col))]);
    } else {
      SplicePlain(lines, ix, ix + 1, SplitLine(line, col));
    }
  }

  /** A line break typed into an image line stays in that line: the image cannot be loaded again as
      it was. Everywhere else it is harmless. */
  lemma BreakPlainExactly(lines: Lines, ix: nat, col: nat)
    requires ix < |lines| && lines[ix] in lines && MarksInside(lines[ix]) && col <= |lines[ix].text| && AllPlain(lines)
    ensures AllPlain(lines[ix := BreakInLine(lines[ix], col)]) <==> lines[ix].block != Image
  {
    hide ShiftMarks;
    var broken := BreakInLine(lines[ix], col);
    var after := lines[ix := broken];
    assert after == Splice(lines, ix, ix + 1, [broken]) && after[ix] == broken;
    if lines[ix].block != Image {
      SplicePlain(lines, ix, ix + 1, [broken]);
    } else {
      assert broken.text != "" && broken in after;
    }
  }

  lemma ListBackspacePlain(lines: Lines, ix: nat)
    requires ix < |lines| && IsListBlock(lines[ix].block) && AllPlain(lines)
    ensures AllPlain(ListLineBackspaced(lines, ix))
  {
    hide Appended;
    if lines[ix].text == "" && ix > 0 {
      SplicePlain(lines, ix, ix + 1, []);
      assert lines[..ix] + lines[ix + 1..] == Splice(lines, ix, ix + 1, []);
    } else if ix == 0 || !ListBlocksSame(lines[ix - 1].block, lines[ix].block) {
      SplicePlain(lines, ix, ix + 1, [AsParagraph(lines[ix])]);
      assert lines[ix := AsParagraph(lines[ix])] == Splice(lines, ix, ix + 1, [AsParagraph(lines[ix])]);
    } else {
      SplicePlain(lines, ix - 1, ix + 1, [Joined(lines[ix - 1], lines[ix])]);
    }
  }

  /** Edits that change each line by itself. */
  lemma LinewisePlain(before: Lines, after: Lines)
    requires |after| == |before| && AllPlain(before)
    requires forall i :: 0 <= i < |before| ==>
               after[i].block != Image ||
               (before[i].block == Image && after[i].text == before[i].text && after[i].imageSrc == before[i].imageSrc)
    ensures AllPlain(after)
  {
    hide Trim;
    forall i | 0 <= i < |after|
      ensures DocRoundTrip.PlainImage(after[i])
    {
      assert before[i] in before;
    }
  }

  lemma MarkingPlain(edit: MarkEdit, lines: Lines, sl: nat, sc: nat, el: nat, ec: nat)
    requires AllPlain(lines)
    ensures AllPlain(OverSelection(edit, lines, sl, sc, el, ec))
  {
    LinewisePlain(lines, OverSelection(edit, lines, sl, sc, el, ec));
  }

  lemma SetBlocksPlain(lines: Lines, start: nat, end: nat, kind: BlockKind)
    requires end < |lines| && kind != Image && AllPlain(lines)
    ensures AllPlain(SetBlocks(lines, start, end, kind))
  {
    LinewisePlain(lines, SetBlocks(lines, start, end, kind));
  }

  lemma ToggleCodePlain(lines: Lines, start: nat, end: nat)
    requires end < |lines| && AllPlain(lines)
    ensures AllPlain(ToggleCode(lines, start, end))
  {
    LinewisePlain(lines, ToggleCode(lines, start, end));
  }

  /** An inserted image can be loaded again exactly when its source has no white space around it. */
  lemma InsertPlainExactly(lines: Lines, ix: nat, col: nat, src: string)
    requires ix < |lines| && col <= |lines[ix].text| && src != "" && AllPlain(lines)
    ensures AllPlain(InsertImage(lines, ix, col, src).0) <==> Trim(src) == src
  {
    hide Trim, MarksUpTo;
    var placed := PlaceImage(lines, ix, col, src);
    var after := WithTrailing(placed.0, placed.1);
    assert InsertImage(lines, ix, col, src).0[placed.1] == ImageLine(src);
    if Trim(src) == src {
      var line, image := lines[ix], ImageLine(src);
      SplicePlain(lines, ix, ix, [image]);
      SplicePlain(lines, ix, ix + 1, [image]);
      SplicePlain(lines, ix + 1, ix + 1, [image]);
      if line.block != Image {
        SplicePlain(lines, ix, ix + 1, [HeadLine(line, col), image, TailLine(line, col)]);
      }
      SplicePlain(placed.0, placed.1 + 1, placed.1 + 1, [DEFAULT_LINE]);
    } else {
      assert ImageLine(src) in InsertImage(lines, ix, col, src).0;
    }
  }
}
