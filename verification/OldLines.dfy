/** An old document line by line: after conversion and loading each line has its text and the block its
    newline asks for, except that a plain line right after a list item joins the list. */
module OldLines {
  import opened Basics
  import opened TipTap
  import opened Quill

  // ---- Lines as an editor wrote them ----

  datatype OldPiece = OldPiece(text: string, style: Attributes)

  /** Pieces of text and the attributes of the newline, or an image. */
  datatype OldLine =
    | Words(pieces: seq<OldPiece>, end: Attributes)
    | Embedded(image: ImageValue)

  predicate Written(line: OldLine) {
    match line
    case Words(pieces, _) => pieces != [] && forall p :: p in pieces ==> p.text != "" && '\n' !in p.text
    case Embedded(image) => QuillImageSrc(image).Some?
  }

  function PieceOps(pieces: seq<OldPiece>): seq<Op> {
    if pieces == [] then [] else [Op(Text(pieces[0].text), pieces[0].style)] + PieceOps(pieces[1..])
  }

  function LineOps(line: OldLine): seq<Op> {
    match line
    case Words(pieces, end) => PieceOps(pieces) + [Op(Text("\n"), end)]
    case Embedded(image) => [Op(Embed(image), PLAIN)]
  }

  function AllOps(lines: seq<OldLine>): seq<Op> {
    if lines == [] then [] else AllOps(lines[..|lines| - 1]) + LineOps(lines[|lines| - 1])
  }

  function TextOfLine(pieces: seq<OldPiece>): string {
    if pieces == [] then "" else pieces[0].text + TextOfLine(pieces[1..])
  }

  /** The list that a newline leaves open. */
  function OpenAfter(end: Attributes): Option<BlockKind> {
    if end.header.Some? || end.list.None? then None
    else Some(if end.list.value == "ordered" then OrderedItem else BulletItem)
  }

  function LeftOpen(line: OldLine): Option<BlockKind> {
    if line.Words? then OpenAfter(line.end) else None
  }

  /** The block of line i: a heading of its level, an item of its list, an image, and otherwise a
      paragraph, or one more item when the line before it was one. */
  function BlockAt(lines: seq<OldLine>, i: nat): BlockKind
    requires i < |lines|
  {
    match lines[i]
    case Embedded(_) => Image
    case Words(_, end) =>
      if end.header.Some? then Heading(end.header.value % 256)
      else if end.list.Some? then OpenAfter(end).value
      else if i > 0 && LeftOpen(lines[i - 1]).Some? then LeftOpen(lines[i - 1]).value
      else Paragraph
  }

  // ---- The accumulators, as they would load ----

  function ItemKind(list: string): BlockKind {
    if list == "orderedList" then OrderedItem else BulletItem
  }

  function LoadedOf(s: State): seq<EditorLine> {
    Blocks(s.doc) + if s.list.Some? then Items(s.list.value.items, ItemKind(s.list.value.kind), None) else []
  }

  /** Between two lines: no text is open, and an open list has items. */
  predicate Between(s: State, open: Option<BlockKind>) {
    && s.paragraph == []
    && (s.list.Some? <==> open.Some?)
    && (s.list.Some? ==>
          && s.list.value.kind in {"orderedList", "bulletList"} && s.list.value.items != []
          && open == Some(ItemKind(s.list.value.kind)))
  }

  lemma {:induction false} NoImageAhead(content: seq<Node>, i: nat)
    requires i <= |content| && forall n :: n in content ==> !IsImage(n)
    ensures ChunkEnd(content, i) == |content|
    decreases |content| - i
  {
    if i < |content| {
      assert content[i] in content;
      NoImageAhead(content, i + 1);
    }
  }

  lemma MixedIsOneLine(content: seq<Node>, block: BlockKind, start: Option<nat>)
    requires Inlines(content)
    ensures Mixed(content, block, start) == [TextLine(block, content, start)]
  {
    hide TextLine;
    NoImageAhead(content, 0);
    assert content[0] in content;
    assert content[0..|content|] == content;
    assert MixedFrom(content, |content|, block, start) == [];
  }

  lemma {:induction false} BlocksSnoc(nodes: seq<Node>, node: Node)
    ensures Blocks(nodes + [node]) == Blocks(nodes) + Block(node)
    decreases |nodes|
  {
    hide Block;
    if nodes == [] {
      assert [] + [node] == [node] && [node][1..] == [];
      assert Block(node) + [] == [] + Block(node);
    } else {
      TailOfAppend(nodes, [node]);
      BlocksSnoc(nodes[1..], node);
      Associative(Block(nodes[0]), Blocks(nodes[1..]), Block(node));
    }
  }

  lemma {:induction false} NoStartLeft(blocks: seq<Node>, kind: BlockKind)
    ensures ItemBlocks(blocks, kind, None).1 == None
    decreases |blocks|
  {
    hide Block, Mixed;
    if blocks != [] {
      NoStartLeft(blocks[1..], kind);
    }
  }

  lemma ItemLoads(content: seq<Node>, kind: BlockKind)
    requires Inlines(content)
    ensures Items([ItemOf(ParagraphOf(content))], kind, None) == [TextLine(kind, content, None)]
  {
    hide Mixed, TextLine, Inlines;
    var paragraph := ParagraphOf(content);
    MixedIsOneLine(content, kind, None);
    assert [paragraph][1..] == [] && [ItemOf(paragraph)][1..] == [];
    assert ItemBlocks([paragraph], kind, None).0 == Mixed(content, kind, None) + [];
  }

  lemma {:induction false} ItemsSnoc(items: seq<Node>, item: Node, kind: BlockKind)
    ensures Items(items + [item], kind, None) == Items(items, kind, None) + Items([item], kind, None)
    decreases |items|
  {
    hide ItemBlocks;
    if items == [] {
      assert [] + [item] == [item];
      assert [] + Items([item], kind, None) == Items([item], kind, None);
    } else {
      TailOfAppend(items, [item]);
      NoStartLeft(items[0].content, kind);
      ItemsSnoc(items[1..], item, kind);
      Associative(ItemBlocks(items[0].content, kind, None).0, Items(items[1..], kind, None), Items([item], kind, None));
    }
  }

  /** What each kind of block loads as. */
  lemma ParagraphLoads(content: seq<Node>, level: nat)
    requires Inlines(content)
    ensures Block(ParagraphOf(content)) == [TextLine(Paragraph, content, None)]
    ensures Block(HeadingOf(level, content)) == [TextLine(Heading(level % 256), content, None)]
  {
    hide Mixed, TextLine, Inlines;
    MixedIsOneLine(content, Paragraph, None);
  }

  lemma ListLoads(kind: string, items: seq<Node>)
    requires kind in {"orderedList", "bulletList"}
    ensures Block(ListOf(kind, items)) == Items(items, ItemKind(kind), None)
  {
    hide Items;
  }

  // ---- One line ----

  lemma FlushLoads(s: State)
    requires s.list.Some? ==> s.list.value.kind in {"orderedList", "bulletList"}
    ensures Blocks(ListFlushed(s).doc) == LoadedOf(s) && ListFlushed(s).list == None
  {
    hide Block, Items;
    NothingAdded(Blocks(s.doc));
    if s.list.Some? {
      var list := s.list.value;
      if list.items == [] {
        assert Items([], ItemKind(list.kind), None) == [] by { NoItems(ItemKind(list.kind)); }
      } else {
        ListLoads(list.kind, list.items);
        BlocksSnoc(s.doc, ListOf(list.kind, list.items));
      }
    }
  }

  lemma NoItems(kind: BlockKind)
    ensures Items([], kind, None) == []
  {
  }

  lemma HeadingEnds(s: State, open: Option<BlockKind>, content: seq<Node>, end: Attributes)
    requires Between(s, open) && Inlines(content) && end.header.Some?
    ensures var after := LineEnded(s.(paragraph := content), end);
            Between(after, None)
            && LoadedOf(after) == LoadedOf(s) + [TextLine(Heading(end.header.value % 256), content, None)]
  {
    hide Block, Items, TextLine, Inlines;
    var t := s.(paragraph := content);
    assert content != [] by { NotEmpty(content); }
    FlushLoads(t);
    ParagraphLoads(content, end.header.value);
    BlocksSnoc(ListFlushed(t).doc, HeadingOf(end.header.value, content));
    NothingAdded(Blocks(ListFlushed(t).doc + [HeadingOf(end.header.value, content)]));
  }

  lemma NotEmpty(content: seq<Node>)
    requires Inlines(content)
    ensures content != []
  {
  }

  lemma ListKinds(list: string)
    ensures ListKind(list) in {"orderedList", "bulletList"}
    ensures ItemKind(ListKind(list)) == if list == "ordered" then OrderedItem else BulletItem
    ensures forall kind :: kind in {"orderedList", "bulletList"} && ItemKind(kind) == ItemKind(ListKind(list)) ==>
                             kind == ListKind(list)
  {
    assert |"orderedList"| != |"bulletList"|;
  }

  lemma ItemEnds(s: State, open: Option<BlockKind>, content: seq<Node>, end: Attributes)
    requires Between(s, open) && Inlines(content) && end.header.None? && end.list.Some?
    ensures var after := LineEnded(s.(paragraph := content), end);
            Between(after, OpenAfter(end)) && LoadedOf(after) == LoadedOf(s) + [TextLine(OpenAfter(end).value, content, None)]
  {
    hide Block, Items, TextLine, Inlines, ItemKind, ListKind;
    NotEmpty(content);
    ListKinds(end.list.value);
    var kind, item := ListKind(end.list.value), ItemOf(ParagraphOf(content));
    var t := s.(paragraph := content);
    ItemLoads(content, ItemKind(kind));
    if s.list.Some? && s.list.value.kind == kind {
      ItemsSnoc(s.list.value.items, item, ItemKind(kind));
      Associative(Blocks(s.doc), Items(s.list.value.items, ItemKind(kind), None), [TextLine(ItemKind(kind), content, None)]);
    } else {
      FlushLoads(t);
      assert [] + [item] == [item];
    }
  }

  lemma PlainEnds(s: State, open: Option<BlockKind>, content: seq<Node>, end: Attributes)
    requires Between(s, open) && Inlines(content) && end.header.None? && end.list.None?
    ensures var after := LineEnded(s.(paragraph := content), end);
            Between(after, None) && LoadedOf(after) == LoadedOf(s) + [TextLine(open.GetOr(Paragraph), content, None)]
  {
    hide Block, Items, TextLine, Inlines, ItemKind;
    NotEmpty(content);
    var paragraph := ParagraphOf(content);
    var t := ParagraphFlushed(s.(paragraph := content));
    NothingAdded(Blocks(s.doc));
    FlushLoads(t);
    NothingAdded(Blocks(ListFlushed(t).doc));
    if s.list.Some? {
      var list := s.list.value;
      ItemLoads(content, ItemKind(list.kind));
      ItemsSnoc(list.items, ItemOf(paragraph), ItemKind(list.kind));
      Associative(Blocks(s.doc), Items(list.items, ItemKind(list.kind), None), [TextLine(ItemKind(list.kind), content, None)]);
    } else {
      ParagraphLoads(content, 0);
      BlocksSnoc(s.doc, paragraph);
      NothingAdded(Blocks(t.doc));
    }
  }

  // ---- All lines ----

  function NodesOf(pieces: seq<OldPiece>): seq<Node> {
    if pieces == [] then [] else [TextOf(pieces[0].text, MarksOf(pieces[0].style))] + NodesOf(pieces[1..])
  }

  lemma {:induction false} NodesAreInline(pieces: seq<OldPiece>)
    requires forall p :: p in pieces ==> p.text != "" && '\n' !in p.text
    ensures pieces != [] ==> Inlines(NodesOf(pieces))
    ensures |NodesOf(pieces)| == |pieces| && InlineText(NodesOf(pieces)) == TextOfLine(pieces)
  {
    hide MarksOf;
    if pieces != [] {
      assert pieces[0] in pieces;
      NodesAreInline(pieces[1..]);
      assert NodesOf(pieces)[1..] == NodesOf(pieces[1..]);
    }
  }

  function AppliedFrom(s: State, ops: seq<Op>): State
    decreases |ops|
  {
    if ops == [] then s else AppliedFrom(Applied(s, ops[0]), ops[1..])
  }

  lemma {:induction false} AppliedSplits(a: seq<Op>, b: seq<Op>)
    ensures AppliedAll(a + b) == AppliedFrom(AppliedAll(a), b)
    decreases |b|
  {
    hide Applied;
    if b == [] {
      NothingAdded(a);
    } else {
      Associative(a, [b[0]], b[1..]);
      assert b == [b[0]] + b[1..];
      AppliedSplits(a + [b[0]], b[1..]);
      AppliedSnoc(a, b[0]);
    }
  }

  lemma {:induction false} FromSplits(s: State, a: seq<Op>, b: seq<Op>)
    ensures AppliedFrom(s, a + b) == AppliedFrom(AppliedFrom(s, a), b)
    decreases |a|
  {
    hide Applied;
    if a == [] {
      assert a + b == b;
    } else {
      TailOfAppend(a, b);
      FromSplits(Applied(s, a[0]), a[1..], b);
    }
  }

  lemma {:induction false} PiecesApplied(s: State, pieces: seq<OldPiece>)
    requires forall p :: p in pieces ==> p.text != "" && '\n' !in p.text
    ensures AppliedFrom(s, PieceOps(pieces)) == s.(paragraph := s.paragraph + NodesOf(pieces))
    decreases |pieces|
  {
    hide Applied, MarksOf, TextOf;
    if pieces == [] {
      NothingAdded(s.paragraph);
    } else {
      var first := pieces[0];
      assert first in pieces;
      TextJoinsParagraph(s, first.text, first.style);
      PiecesApplied(Applied(s, PieceOps(pieces)[0]), pieces[1..]);
      assert PieceOps(pieces)[1..] == PieceOps(pieces[1..]);
      Associative(s.paragraph, [TextOf(first.text, MarksOf(first.style))], NodesOf(pieces[1..]));
    }
  }

  /** An image ends the list before it. */
  lemma ImageEnds(s: State, open: Option<BlockKind>, image: ImageValue)
    requires Between(s, open) && QuillImageSrc(image).Some?
    ensures var after := AppliedFrom(s, [Op(Embed(image), PLAIN)]);
            Between(after, None) && LoadedOf(after) == LoadedOf(s) + [ImageLine(QuillImageSrc(image).value)]
  {
    hide Block, Items, QuillImageSrc;
    var src := QuillImageSrc(image).value;
    assert [Op(Embed(image), PLAIN)][1..] == [];
    FlushLoads(s);
    SourceIsTrimmed(image);
    ImageLoads(src);
    BlocksSnoc(ListFlushed(s).doc, ImageOf(src));
    NothingAdded(Blocks(ListFlushed(s).doc + [ImageOf(src)]));
  }

  lemma ImageLoads(src: string)
    requires IsSource(src)
    ensures Block(ImageOf(src)) == [ImageLine(src)]
  {
    hide Trim;
  }

  lemma LineApplied(s: State, line: OldLine)
    requires line.Words? && Written(line) && s.paragraph == []
    ensures AppliedFrom(s, LineOps(line)) == LineEnded(s.(paragraph := NodesOf(line.pieces)), line.end)
  {
    hide LineEnded, PieceOps, NodesOf;
    FromSplits(s, PieceOps(line.pieces), [Op(Text("\n"), line.end)]);
    PiecesApplied(s, line.pieces);
    assert [] + NodesOf(line.pieces) == NodesOf(line.pieces);
    assert [Op(Text("\n"), line.end)][1..] == [];
  }

  function OpenAt(lines: seq<OldLine>): Option<BlockKind> {
    if lines == [] then None else LeftOpen(lines[|lines| - 1])
  }

  function ExpectedAt(lines: seq<OldLine>, i: nat): EditorLine
    requires i < |lines| && Written(lines[i])
  {
    match lines[i]
    case Words(pieces, _) => TextLine(BlockAt(lines, i), NodesOf(pieces), None)
    case Embedded(image) => ImageLine(QuillImageSrc(image).value)
  }

  function Expected(lines: seq<OldLine>): (r: seq<EditorLine>)
    requires forall l :: l in lines ==> Written(l)
    ensures |r| == |lines|
    ensures forall i :: 0 <= i < |lines| ==> Written(lines[i]) && r[i] == ExpectedAt(lines, i)
  {
    assert forall i :: 0 <= i < |lines| ==> lines[i] in lines;
    seq(|lines|, i requires 0 <= i < |lines| => ExpectedAt(lines, i))
  }

  lemma ExpectedEarlier(lines: seq<OldLine>, n: nat, i: nat)
    requires i < n <= |lines| && Written(lines[i])
    ensures ExpectedAt(lines[..n], i) == ExpectedAt(lines, i)
  {
    hide TextLine, NodesOf, Written, QuillImageSrc, LeftOpen;
  }

  lemma PlainBlock(lines: seq<OldLine>)
    requires lines != []
    ensures var n := |lines| - 1;
            lines[n].Words? && lines[n].end.header.None? && lines[n].end.list.None? ==>
              BlockAt(lines, n) == OpenAt(lines[..n]).GetOr(Paragraph)
  {
    hide OpenAfter;
  }

  lemma ExpectedSnoc(lines: seq<OldLine>)
    requires lines != [] && forall l :: l in lines ==> Written(l)
    ensures var n := |lines| - 1;
            && lines[n] in lines && Expected(lines) == Expected(lines[..n]) + [ExpectedAt(lines, n)]
            && (lines[n].Words? && lines[n].end.header.None? && lines[n].end.list.None? ==>
                  BlockAt(lines, n) == OpenAt(lines[..n]).GetOr(Paragraph))
  {
    hide ExpectedAt, Written, BlockAt, OpenAt;
    var n := |lines| - 1;
    PlainBlock(lines);
    forall i | 0 <= i < n
      ensures lines[i] in lines && ExpectedAt(lines[..n], i) == ExpectedAt(lines, i)
    {
      assert lines[i] in lines;
      ExpectedEarlier(lines, n, i);
    }
  }

  lemma {:induction false} LinesApplied(lines: seq<OldLine>)
    requires forall l :: l in lines ==> Written(l)
    ensures Between(AppliedAll(AllOps(lines)), OpenAt(lines))
    ensures LoadedOf(AppliedAll(AllOps(lines))) == Expected(lines)
    decreases |lines|
  {
    hide LoadedOf, Applied, LineOps, LineEnded, Written, TextLine, NodesOf, Inlines, Expected, QuillImageSrc;
    if lines == [] {
      NothingLoaded();
    } else {
      var n := |lines| - 1;
      var before, line := lines[..n], lines[n];
      assert line in lines;
      LinesApplied(before);
      var s := AppliedAll(AllOps(before));
      AppliedSplits(AllOps(before), LineOps(line));
      ExpectedSnoc(lines);
      OneMoreLine(s, OpenAt(before), line);
    }
  }

  /** What one line adds. */
  lemma OneMoreLine(s: State, open: Option<BlockKind>, line: OldLine)
    requires Between(s, open) && Written(line)
    ensures var after := AppliedFrom(s, LineOps(line));
            && Between(after, LeftOpen(line))
            && LoadedOf(after) == LoadedOf(s) + [
                 match line
                 case Embedded(image) => ImageLine(QuillImageSrc(image).value)
                 case Words(pieces, end) =>
                   TextLine(if end.header.Some? then Heading(end.header.value % 256)
                            else if end.list.Some? then OpenAfter(end).value
                            else open.GetOr(Paragraph), NodesOf(pieces), None)]
  {
    hide LoadedOf, Applied, LineEnded, TextLine, NodesOf, Inlines, QuillImageSrc, PieceOps, Between;
    match line
    case Embedded(image) => ImageEnds(s, open, image);
    case Words(pieces, end) =>
      assert s.paragraph == [] by { NoneOpen(s, open); }
      LineApplied(s, line);
      WrittenIsInline(line);
      if end.header.Some? {
        HeadingEnds(s, open, NodesOf(pieces), end);
      } else if end.list.Some? {
        ItemEnds(s, open, NodesOf(pieces), end);
      } else {
        PlainEnds(s, open, NodesOf(pieces), end);
      }
  }

  lemma NoneOpen(s: State, open: Option<BlockKind>)
    requires Between(s, open)
    ensures s.paragraph == []
  {
  }

  lemma WrittenIsInline(line: OldLine)
    requires line.Words? && Written(line)
    ensures Inlines(NodesOf(line.pieces)) && InlineText(NodesOf(line.pieces)) == TextOfLine(line.pieces)
  {
    hide Inlines, NodesOf;
    NodesAreInline(line.pieces);
  }

  lemma NothingLoaded()
    ensures AppliedAll(AllOps([])) == NOTHING && LoadedOf(NOTHING) == Expected([])
  {
  }

  /** Every line and every image of an old document is loaded as one line, in order, with its text and its
      block, or with its source. */
  lemma OldLinesLoad(lines: seq<OldLine>)
    requires lines != [] && forall l :: l in lines ==> Written(l)
    ensures var loaded := LinesFromDoc(Converted(AllOps(lines)));
            && |loaded| == |lines|
            && forall i :: 0 <= i < |lines| ==>
                 && loaded[i].block == BlockAt(lines, i) && loaded[i].orderedStart == None
                 && match lines[i]
                    case Words(pieces, _) => loaded[i].text == TextOfLine(pieces) && loaded[i].imageSrc == None
                    case Embedded(image) => loaded[i].text == "" && loaded[i].imageSrc == QuillImageSrc(image)
  {
    hide AllOps, AppliedAll, Written, BlockAt, Inlines, Blocks, Items, NodesOf, QuillImageSrc;
    LinesApplied(lines);
    var s := AppliedAll(AllOps(lines));
    FlushLoads(s);
    assert BothFlushed(s) == ListFlushed(s);
    assert BothFlushed(s).doc != [] by {
      assert Blocks([]) == [] by { NoBlocks(); }
      assert |LoadedOf(s)| == |lines|;
    }
    forall i | 0 <= i < |lines|
      ensures lines[i] in lines && (lines[i].Words? ==> InlineText(NodesOf(lines[i].pieces)) == TextOfLine(lines[i].pieces))
      ensures lines[i].Embedded? ==> BlockAt(lines, i) == Image && QuillImageSrc(lines[i].image).Some?
    {
      assert lines[i] in lines;
      if lines[i].Words? {
        WrittenIsInline(lines[i]);
      } else {
        ImageBlock(lines, i);
      }
    }
  }

  lemma ImageBlock(lines: seq<OldLine>, i: nat)
    requires i < |lines| && lines[i].Embedded? && Written(lines[i])
    ensures BlockAt(lines, i) == Image && QuillImageSrc(lines[i].image).Some?
  {
  }

  lemma NoBlocks()
    ensures Blocks([]) == []
  {
  }
}
