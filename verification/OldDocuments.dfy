/** Opening an old document: converted to a tree and read into lines, it still holds every character
    and image in order, every style the editor has, and every line the block its newline asks for. */
module OldDocuments {
  import opened Basics
  import opened TipTap
  import opened InlineRoundTrip
  import opened Quill
  import opened Reading
  import TipTapLoops

  // ---- What is kept of the operations ----

  /** An atom as it is seen in lines, whatever the block. */
  function KeptOf(atom: Atom): Seen {
    match atom
    case Character(c, marks) => Letter(c, StylesOf(marks), Paragraph)
    case Picture(src) => Shown(src)
  }

  /** Atom by atom: nothing goes and nothing moves. */
  function Kept(atoms: seq<Atom>): (r: seq<Seen>)
    ensures |r| == |atoms| && forall i :: 0 <= i < |atoms| ==> r[i] == KeptOf(atoms[i])
  {
    seq(|atoms|, i requires 0 <= i < |atoms| => KeptOf(atoms[i]))
  }

  lemma KeptAppend(a: seq<Atom>, b: seq<Atom>)
    ensures Kept(a + b) == Kept(a) + Kept(b)
  {
    hide KeptOf;
  }

  /** What is seen, without the blocks. */
  function Unplaced(seen: seq<Seen>): (r: seq<Seen>)
    ensures |r| == |seen|
    ensures forall i :: 0 <= i < |r| ==> r[i] == if seen[i].Letter? then seen[i].(block := Paragraph) else seen[i]
  {
    seq(|seen|, i requires 0 <= i < |seen| => if seen[i].Letter? then seen[i].(block := Paragraph) else seen[i])
  }

  lemma UnplacedAppend(a: seq<Seen>, b: seq<Seen>)
    ensures Unplaced(a + b) == Unplaced(a) + Unplaced(b)
  {
  }

  lemma {:induction false} StylesOfAppend(a: seq<Mark>, b: seq<Mark>)
    ensures StylesOf(a + b) == StylesOf(a) + StylesOf(b)
  {
    hide KindOfMark, HrefOf;
    if a == [] {
      assert a + b == b;
    } else {
      TailOfAppend(a, b);
      StylesOfAppend(a[1..], b);
    }
  }

  lemma StylesOfKnown(href: string)
    ensures StylesOf([Mark("bold", None)]) == [Style(Bold, None)]
    ensures StylesOf([Mark("italic", None)]) == [Style(Italic, None)]
    ensures StylesOf([Mark("underline", None)]) == [] && StylesOf([]) == []
    ensures StylesOf([Mark("strike", None)]) == [Style(Strike, None)]
    ensures StylesOf([Mark("link", Some(map["href" := Str(href)]))]) == [Style(Link, Some(href))]
  {
    hide StylesOf;
    StylesOfOne(Mark("bold", None));
    StylesOfOne(Mark("italic", None));
    StylesOfOne(Mark("underline", None));
    StylesOfOne(Mark("strike", None));
    StylesOfOne(Mark("link", Some(map["href" := Str(href)])));
  }

  lemma StylesOfOne(mark: Mark)
    ensures StylesOf([]) == [] && StylesOf([mark]) == StyleOfMark(mark)
  {
    hide StyleOfMark;
    assert [mark][1..] == [];
  }

  /** Bold, italic, strike and the link of an operation are kept, in this order; underline is not. */
  lemma StylesOfAttributes(a: Attributes)
    ensures StylesOf(MarksOf(a)) ==
            (if a.bold then [Style(Bold, None)] else []) +
            (if a.italic then [Style(Italic, None)] else []) +
            (if a.strike then [Style(Strike, None)] else []) +
            (if a.link.Some? then [Style(Link, a.link)] else [])
  {
    hide StylesOf;
    StylesOfKnown(a.link.GetOr(""));
    var bold := if a.bold then [Mark("bold", None)] else [];
    var italic := if a.italic then [Mark("italic", None)] else [];
    var underline := if a.underline then [Mark("underline", None)] else [];
    var strike := if a.strike then [Mark("strike", None)] else [];
    var link := if a.link.Some? then [Mark("link", Some(map["href" := Str(a.link.value)]))] else [];
    StylesOfAppend(bold, italic);
    StylesOfAppend(bold + italic, underline);
    StylesOfAppend(bold + italic + underline, strike);
    StylesOfAppend(bold + italic + underline + strike, link);
    NothingAdded(StylesOf(bold + italic));
  }

  // ---- Converted trees, as they read ----

  lemma {:induction false} StyledReads(text: string, marks: seq<Mark>, block: BlockKind)
    requires '\n' !in text
    ensures Unplaced(Uniform(text, StylesOf(marks), block)) == Kept(Styled(text, marks))
  {
    hide StylesOf;
    if text != [] {
      assert text[0] in text;
      StyledReads(text[1..], marks, block);
      FirstUniform(text, StylesOf(marks), block);
      UnplacedAppend([Letter(text[0], StylesOf(marks), block)], Uniform(text[1..], StylesOf(marks), block));
      KeptAppend([Character(text[0], marks)], Styled(text[1..], marks));
    }
  }

  lemma TextReads(node: Node, block: BlockKind)
    requires IsTextNode(node)
    ensures Unplaced(Words(node, true, block)) == Kept(NodeAtoms(node))
  {
    hide StylesOf, Styled, Uniform;
    StyledReads(node.text.value, node.marks.GetOr([]), block);
  }

  lemma {:induction false} WordsRead(nodes: seq<Node>, block: BlockKind)
    requires forall n :: n in nodes ==> IsTextNode(n)
    ensures Unplaced(WordsOf(nodes, true, block)) == Kept(NodesAtoms(nodes))
    decreases |nodes|
  {
    hide Words, NodeAtoms, IsTextNode;
    if nodes != [] {
      assert nodes[0] in nodes;
      TextReads(nodes[0], block);
      WordsRead(nodes[1..], block);
      UnplacedAppend(Words(nodes[0], true, block), WordsOf(nodes[1..], true, block));
      KeptAppend(NodeAtoms(nodes[0]), NodesAtoms(nodes[1..]));
    }
  }

  lemma InlinesRead(content: seq<Node>, block: BlockKind, level: Byte)
    requires Inlines(content)
    ensures Unplaced(ReadAll(content, Prose(block))) == Kept(NodesAtoms(content))
    ensures Unplaced(ReadAll(content, Title(level))) == Kept(NodesAtoms(content))
  {
    hide NodesAtoms, ReadAll, Unplaced, Kept;
    ProseIsWords(content, block);
    TitleIsWords(content, level);
    WordsRead(content, block);
    WordsRead(content, Heading(level));
  }

  lemma {:induction false} ListReads(items: seq<Node>, kind: BlockKind)
    requires forall n :: n in items ==> IsListItem(n)
    ensures Unplaced(ReadAll(items, List(kind))) == Kept(NodesAtoms(items))
    decreases |items|
  {
    hide NodeAtoms, ReadNode, IsListItem;
    if items != [] {
      assert items[0] in items;
      ItemReads(items[0], kind);
      ListReads(items[1..], kind);
      UnplacedAppend(ReadNode(items[0], List(kind)), ReadAll(items[1..], List(kind)));
      KeptAppend(NodeAtoms(items[0]), NodesAtoms(items[1..]));
    }
  }

  lemma ItemReads(item: Node, kind: BlockKind)
    requires IsListItem(item)
    ensures Unplaced(ReadNode(item, List(kind))) == Kept(NodeAtoms(item))
  {
    hide Inlines, Unplaced, Kept;
    var paragraph := item.content[0];
    assert item.content == [paragraph] && item.content[1..] == [];
    InlinesRead(paragraph.content, kind, 1);
    NodesAtomsOne(paragraph);
    OneRead(paragraph, Entry(kind));
    assert NodeAtoms(item) == NodesAtoms(item.content);
    assert ReadNode(paragraph, Entry(kind)) == ReadAll(paragraph.content, Prose(kind));
  }

  lemma OneRead(node: Node, at: Where)
    ensures ReadAll([node], at) == ReadNode(node, at)
  {
    hide ReadNode;
    assert [node][1..] == [];
    NothingRead(at);
  }

  lemma BlockReads(node: Node)
    requires IsBlock(node)
    ensures Unplaced(ReadBlock(node)) == Kept(NodeAtoms(node))
  {
    hide Inlines, IsListItem, Unplaced, Kept, NodesAtoms, ReadAll, IsSource, Illustration;
    if node.kind == "paragraph" {
      InlinesRead(node.content, Paragraph, 1);
    } else if node.kind == "heading" {
      InlinesRead(node.content, Paragraph, LevelOf(node.attrs));
    } else if node.kind == "image" {
      ImageReads(node);
    } else {
      ListReads(node.content, BulletItem);
      ListReads(node.content, OrderedItem);
    }
  }

  lemma ImageReads(node: Node)
    requires node.kind == "image" && Attr(node.attrs, "src").Str? && IsSource(Attr(node.attrs, "src").s)
    ensures Unplaced(Illustration(node.attrs)) == Kept(NodeAtoms(node))
  {
    hide Trim;
  }

  lemma {:induction false} BlocksRead(nodes: seq<Node>)
    requires forall n :: n in nodes ==> IsBlock(n)
    ensures Unplaced(ReadAll(nodes, Body)) == Kept(NodesAtoms(nodes))
    decreases |nodes|
  {
    hide IsBlock, NodeAtoms, ReadBlock;
    if nodes != [] {
      assert nodes[0] in nodes;
      BlockReads(nodes[0]);
      BlocksRead(nodes[1..]);
      UnplacedAppend(ReadBlock(nodes[0]), ReadAll(nodes[1..], Body));
      KeptAppend(NodeAtoms(nodes[0]), NodesAtoms(nodes[1..]));
    }
  }

  lemma EmptyReads()
    ensures ReadAll([ParagraphOf([])], Body) == [] && Kept(NodesAtoms([ParagraphOf([])])) == [] && Unplaced([]) == []
  {
    NodesAtomsOne(ParagraphOf([]));
    ParagraphAtoms([]);
    assert [ParagraphOf([])][1..] == [];
  }

  /** An old document as the editor opens it: converted, then read. Every character and every image is
      there once and in order, and every character has its styles, underline excepted. */
  method OpenOld(ops: seq<Op>) returns (lines: seq<EditorLine>)
    ensures lines == LinesFromDoc(Converted(ops))
    ensures Unplaced(SeenInAll(lines)) == Kept(OpsAtoms(ops))
  {
    hide *;
    var doc := QuillDeltaToTipTap(ops);
    DocIs(ops);
    lines := TipTapLoops.LinesFromDocLoop(doc);
    LoadedAsRead(doc);
    DocAtoms(doc.content);
    if doc.content == [ParagraphOf([])] {
      EmptyReads();
    } else {
      BlocksRead(doc.content);
    }
  }

  lemma DocIs(ops: seq<Op>)
    ensures Converted(ops) == Node("doc", None, Converted(ops).content, None, None)
  {
    hide AppliedAll, BothFlushed;
  }
}
