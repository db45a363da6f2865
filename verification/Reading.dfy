/** Loading a document against a plain reading of its tree: the characters with their styles and blocks,
    and the images, come out in the order of a depth-first walk. */
module Reading {
  import opened Basics
  import opened TipTap
  import opened InlineRoundTrip
  import LoadedLines

  // ---- What a reader sees in lines ----

  datatype Seen = Letter(c: char, styles: seq<Style>, block: BlockKind) | Shown(src: string)

  /** Characters of a line from p on. */
  function Letters(line: EditorLine, p: nat): seq<Seen>
    requires p <= |line.text|
    decreases |line.text| - p
  {
    if p == |line.text| then [] else [Letter(line.text[p], StylesAt(line.marks, p), line.block)] + Letters(line, p + 1)
  }

  function SeenIn(line: EditorLine): seq<Seen> {
    if line.block != Image then Letters(line, 0)
    else if line.imageSrc.Some? then [Shown(line.imageSrc.value)]
    else []
  }

  function SeenInAll(lines: seq<EditorLine>): seq<Seen> {
    if lines == [] then [] else SeenIn(lines[0]) + SeenInAll(lines[1..])
  }

  lemma {:induction false} SeenAppend(a: seq<EditorLine>, b: seq<EditorLine>)
    ensures SeenInAll(a + b) == SeenInAll(a) + SeenInAll(b)
  {
    hide SeenIn;
    if a == [] {
      assert a + b == b;
    } else {
      TailOfAppend(a, b);
      SeenAppend(a[1..], b);
      Associative(SeenIn(a[0]), SeenInAll(a[1..]), SeenInAll(b));
    }
  }

  lemma SeenOne(line: EditorLine)
    ensures SeenInAll([line]) == SeenIn(line) && SeenInAll([]) == []
  {
    hide SeenIn;
    assert [line][1..] == [];
    NothingAdded(SeenIn(line));
  }

  // ---- The plain reading of a tree ----

  /** The kinds of marks that the editor has. */
  const STYLES: map<string, MarkKind> :=
    map["bold" := Bold, "italic" := Italic, "strike" := Strike, "code" := Code, "link" := Link]

  /** A link leads where its attribute says, or to the default target. */
  function StyleOfMark(mark: Mark): seq<Style> {
    if mark.kind !in STYLES then []
    else
      [Style(STYLES[mark.kind],
             if mark.kind != "link" then None
             else match Attr(mark.attrs, "href")
                  case Str(href) => Some(href)
                  case _ => Some("https://"))]
  }

  /** The styles that marks stand for; marks of other kinds give none. */
  function StylesOf(marks: seq<Mark>): seq<Style> {
    if marks == [] then [] else StyleOfMark(marks[0]) + StylesOf(marks[1..])
  }

  lemma MarkIsRead(mark: Mark)
    ensures StyleOfMark(mark) == match KindOfMark(mark.kind)
                                 case None => []
                                 case Some(kind) => [StyleOf(EditorMark(0, 0, kind, HrefOf(mark)))]
  {
    hide Attr;
  }

  /** What a node is read as. */
  datatype Where =
    | Body                        // a block
    | Quote                       // a block of a quotation
    | List(item: BlockKind)       // an item; other nodes of a list are passed over
    | Entry(item: BlockKind)      // a block of an item
    | TaskList                    // a task; other nodes of a task list are passed over
    | Task(checked: bool)         // a paragraph of a task; other blocks are passed over
    | Prose(block: BlockKind)     // text, line breaks and images
    | Title(level: Byte)          // text and line breaks; images are passed over
    | Listing                     // the same without marks

  function Uniform(text: string, styles: seq<Style>, block: BlockKind): (r: seq<Seen>)
    ensures |r| == |text| && forall i :: 0 <= i < |r| ==> r[i] == Letter(text[i], styles, block)
  {
    seq(|text|, i requires 0 <= i < |text| => Letter(text[i], styles, block))
  }

  /** A text node or a line break; any other node is passed over, with all it holds. */
  function Words(node: Node, marked: bool, block: BlockKind): seq<Seen> {
    if node.kind == "text" then
      Uniform(node.text.GetOr(""), if marked then StylesOf(node.marks.GetOr([])) else [], block)
    else if node.kind == "hardBreak" then [Letter('\n', [], block)]
    else []
  }

  /** The source under the first of the keys that has one, trimmed; a blank one is none. */
  function FirstSource(attrs: Option<Attrs>, keys: seq<string>): seq<Seen> {
    if keys == [] then []
    else match Attr(attrs, keys[0])
      case Str(s) => if Trim(s) == "" then FirstSource(attrs, keys[1..]) else [Shown(Trim(s))]
      case _ => FirstSource(attrs, keys[1..])
  }

  function Illustration(attrs: Option<Attrs>): seq<Seen> {
    FirstSource(attrs, ["src", "url", "href"])
  }

  lemma IllustrationIs(attrs: Option<Attrs>)
    ensures Illustration(attrs) == match ImageSrc(attrs)
                                   case None => []
                                   case Some(src) => [Shown(src)]
  {
    hide Trim, Attr, FirstSource;
    var keys := ["src", "url", "href"];
    assert keys[1..] == ["url", "href"] && ["url", "href"][1..] == ["href"] && ["href"][1..] == [];
    SourceStep(attrs, keys);
    SourceStep(attrs, keys[1..]);
    SourceStep(attrs, keys[1..][1..]);
    SourceStep(attrs, []);
  }

  lemma SourceStep(attrs: Option<Attrs>, keys: seq<string>)
    ensures keys == [] ==> FirstSource(attrs, keys) == []
    ensures keys != [] ==>
              FirstSource(attrs, keys) ==
              if SrcUnder(attrs, keys[0]).Some? then [Shown(SrcUnder(attrs, keys[0]).value)] else FirstSource(attrs, keys[1..])
  {
    hide Trim, Attr;
  }

  function ReadNode(node: Node, at: Where): seq<Seen>
    decreases node, 2
  {
    match at
    case Prose(block) => if node.kind == "image" then Illustration(node.attrs) else Words(node, true, block)
    case Title(level) => Words(node, true, Heading(level))
    case Listing => Words(node, false, CodeBlock)
    case List(item) => if node.kind == "listItem" then ReadAll(node.content, Entry(item)) else []
    case TaskList =>
      if node.kind == "taskItem" then ReadAll(node.content, Task(Attr(node.attrs, "checked") == Bool(true))) else []
    case Task(checked) => if node.kind == "paragraph" then ReadAll(node.content, Prose(TaskItem(checked))) else []
    case Entry(item) => if node.kind == "paragraph" then ReadAll(node.content, Prose(item)) else ReadBlock(node)
    case Quote => if node.kind == "paragraph" then ReadAll(node.content, Prose(Blockquote)) else ReadBlock(node)
    case Body => ReadBlock(node)
  }

  /** Headings without a level are of the first. */
  function LevelOf(attrs: Option<Attrs>): Byte {
    if attrs.Some? && "level" in attrs.value && attrs.value["level"].Num? then attrs.value["level"].n % 256 else 1
  }

  function ReadBlock(node: Node): seq<Seen>
    decreases node, 1
  {
    if node.kind == "image" then Illustration(node.attrs)
    else ReadAll(node.content,
                 if node.kind == "paragraph" then Prose(Paragraph)
                 else if node.kind == "heading" then Title(LevelOf(node.attrs))
                 else if node.kind == "blockquote" then Quote
                 else if node.kind == "codeBlock" then Listing
                 else if node.kind == "bulletList" then List(BulletItem)
                 else if node.kind == "orderedList" then List(OrderedItem)
                 else if node.kind == "taskList" then TaskList
                 else Body)
  }

  /** One node after the other. */
  function ReadAll(nodes: seq<Node>, at: Where): seq<Seen>
    decreases nodes, 0
  {
    if nodes == [] then [] else ReadNode(nodes[0], at) + ReadAll(nodes[1..], at)
  }

  lemma {:induction false} ReadAppend(a: seq<Node>, b: seq<Node>, at: Where)
    ensures ReadAll(a + b, at) == ReadAll(a, at) + ReadAll(b, at)
    decreases |a|
  {
    hide ReadNode;
    if a == [] {
      assert a + b == b;
    } else {
      TailOfAppend(a, b);
      ReadAppend(a[1..], b, at);
      Associative(ReadNode(a[0], at), ReadAll(a[1..], at), ReadAll(b, at));
    }
  }

  // ---- Inline content ----

  lemma {:induction false} MarksOverStyles(marks: seq<Mark>, start: nat, end: nat, p: nat)
    requires start <= p < end
    ensures StylesAt(MarksOver(marks, start, end), p) == StylesOf(marks)
  {
    hide KindOfMark, HrefOf, StyleOfMark;
    if marks != [] {
      MarkIsRead(marks[0]);
      MarksOverStyles(marks[1..], start, end, p);
      var rest := MarksOver(marks[1..], start, end);
      match KindOfMark(marks[0].kind)
      case None =>
        assert MarksOver(marks, start, end) == rest;
      case Some(kind) =>
        assert MarksOver(marks, start, end)[1..] == rest;
    }
  }

  /** A stretch of one style. */
  lemma {:induction false} Stretch(line: EditorLine, p: nat, own: string, styles: seq<Style>)
    requires p + |own| <= |line.text|
    requires forall k :: 0 <= k < |own| ==> line.text[p + k] == own[k]
    requires forall q :: p <= q < p + |own| ==> StylesAt(line.marks, q) == styles
    ensures Letters(line, p) == Uniform(own, styles, line.block) + Letters(line, p + |own|)
    decreases |own|
  {
    hide StylesAt, Uniform;
    if own == [] {
      assert Uniform(own, styles, line.block) == [] by { FirstUniform(own, styles, line.block); }
    } else {
      assert own[0] == line.text[p + 0];
      forall k | 0 <= k < |own[1..]|
        ensures line.text[p + 1 + k] == own[1..][k]
      {
        assert line.text[p + (k + 1)] == own[k + 1];
      }
      Stretch(line, p + 1, own[1..], styles);
      FirstUniform(own, styles, line.block);
      Associative([Letter(own[0], styles, line.block)], Uniform(own[1..], styles, line.block), Letters(line, p + |own|));
    }
  }

  lemma FirstUniform(own: string, styles: seq<Style>, block: BlockKind)
    ensures own == [] ==> Uniform(own, styles, block) == []
    ensures own != [] ==> Uniform(own, styles, block) == [Letter(own[0], styles, block)] + Uniform(own[1..], styles, block)
  {
  }

  function OwnStyles(node: Node, marked: bool): seq<Style> {
    if marked && node.kind == "text" then StylesOf(node.marks.GetOr([])) else []
  }

  lemma WordsAreText(node: Node, marked: bool, block: BlockKind)
    ensures Words(node, marked, block) == Uniform(NodeText(node), OwnStyles(node, marked), block)
  {
    hide StylesOf;
  }

  lemma NodeStyles(node: Node, offset: nat, q: nat)
    requires offset <= q < offset + |NodeText(node)|
    ensures StylesAt(NodeMarks(node, offset), q) == OwnStyles(node, true)
  {
    hide StylesAt, StylesOf, MarksOver;
    if node.kind == "text" {
      MarksOverStyles(node.marks.GetOr([]), offset, offset + |NodeText(node)|, q);
    } else {
      StylesAtOutside([], q);
    }
  }

  lemma NodeMarksEnd(node: Node, offset: nat)
    ensures forall m :: m in NodeMarks(node, offset) ==> m.end <= offset + |NodeText(node)|
  {
    hide MarksOver;
    LoadedLines.MarksOverRange(node.marks.GetOr([]), offset, offset + |NodeText(node)|);
  }

  function WordsOf(nodes: seq<Node>, marked: bool, block: BlockKind): seq<Seen> {
    if nodes == [] then [] else Words(nodes[0], marked, block) + WordsOf(nodes[1..], marked, block)
  }

  /** Inline nodes that follow `before`, whose own marks end there. */
  lemma {:induction false} InlineSeen(nodes: seq<Node>, before: string, marks: seq<EditorMark>, block: BlockKind,
                                      start: Option<nat>)
    requires forall m :: m in marks ==> m.end <= |before|
    ensures var line := EditorLine(block, before + InlineText(nodes), marks + InlineMarks(nodes, |before|), None, start);
            Letters(line, |before|) == WordsOf(nodes, true, block)
    decreases |nodes|
  {
    hide *;
    if nodes == [] {
      NothingSeen(before, marks, block, start);
    } else {
      var node, rest := nodes[0], nodes[1..];
      var own, here := NodeText(node), NodeMarks(node, |before|);
      NodeMarksEnd(node, |before|);
      InlineSeen(rest, before + own, marks + here, block, start);
      InlineUnfold(nodes, |before|, block);
      Associative(before, own, InlineText(rest));
      Associative(marks, here, InlineMarks(rest, |before| + |own|));
      NodeSeen(before, node, InlineText(rest), marks, rest, block, start);
    }
  }

  lemma InlineUnfold(nodes: seq<Node>, offset: nat, block: BlockKind)
    requires nodes != []
    ensures InlineText(nodes) == NodeText(nodes[0]) + InlineText(nodes[1..])
    ensures InlineMarks(nodes, offset) == NodeMarks(nodes[0], offset) + InlineMarks(nodes[1..], offset + |NodeText(nodes[0])|)
    ensures WordsOf(nodes, true, block) == Words(nodes[0], true, block) + WordsOf(nodes[1..], true, block)
  {
    hide NodeText, NodeMarks, Words;
  }

  lemma NothingSeen(before: string, marks: seq<EditorMark>, block: BlockKind, start: Option<nat>)
    ensures var line := EditorLine(block, before + InlineText([]), marks + InlineMarks([], |before|), None, start);
            Letters(line, |before|) == WordsOf([], true, block)
  {
    assert before + "" == before;
  }

  /** The characters of one node, with other nodes before and after. */
  lemma NodeSeen(before: string, node: Node, after: string, marks: seq<EditorMark>, rest: seq<Node>, block: BlockKind,
                 start: Option<nat>)
    requires forall m :: m in marks ==> m.end <= |before|
    ensures var p := |before| + |NodeText(node)|;
            var line := EditorLine(block, before + NodeText(node) + after,
                                   marks + NodeMarks(node, |before|) + InlineMarks(rest, p), None, start);
            Letters(line, |before|) == Words(node, true, block) + Letters(line, p)
  {
    hide *;
    var own := NodeText(node);
    var p := |before| + |own|;
    var here, later := NodeMarks(node, |before|), InlineMarks(rest, p);
    var line := EditorLine(block, before + own + after, marks + here + later, None, start);
    forall q | |before| <= q < p
      ensures StylesAt(line.marks, q) == OwnStyles(node, true)
    {
      StylesHere(marks, here, later, q, rest, p);
      NodeStyles(node, |before|, q);
    }
    WordsAreText(node, true, block);
    Stretch(line, |before|, own, OwnStyles(node, true));
  }

  lemma StylesHere(before: seq<EditorMark>, here: seq<EditorMark>, later: seq<EditorMark>, q: nat, rest: seq<Node>, offset: nat)
    requires q < offset && later == InlineMarks(rest, offset) && forall m :: m in before ==> m.end <= q
    ensures StylesAt(before + here + later, q) == StylesAt(here, q)
  {
    hide StylesAt, InlineMarks;
    StylesAtAppend(before + here, later, q);
    StylesAtAppend(before, here, q);
    StylesAtOutside(before, q);
    LoadedLines.InlineMarksInside(rest, offset);
    StylesAtOutside(later, q);
    assert [] + StylesAt(here, q) + [] == StylesAt(here, q);
  }

  lemma TextLineSeen(block: BlockKind, content: seq<Node>, start: Option<nat>)
    requires block != Image
    ensures SeenInAll([TextLine(block, content, start)]) == WordsOf(content, true, block)
  {
    hide InlineText, InlineMarks, WordsOf, Letters;
    InlineSeen(content, "", [], block, start);
    assert "" + InlineText(content) == InlineText(content) && [] + InlineMarks(content, 0) == InlineMarks(content, 0);
    SeenOne(TextLine(block, content, start));
  }

  // ---- Titles, code, and stretches of a paragraph ----

  lemma {:induction false} TitleIsWords(nodes: seq<Node>, level: Byte)
    ensures ReadAll(nodes, Title(level)) == WordsOf(nodes, true, Heading(level))
    decreases |nodes|
  {
    hide Words;
    if nodes != [] {
      TitleIsWords(nodes[1..], level);
    }
  }

  lemma {:induction false} ProseIsWords(nodes: seq<Node>, block: BlockKind)
    requires forall n :: n in nodes ==> !IsImage(n)
    ensures ReadAll(nodes, Prose(block)) == WordsOf(nodes, true, block)
    decreases |nodes|
  {
    hide Words, Illustration;
    if nodes != [] {
      assert nodes[0] in nodes;
      ProseIsWords(nodes[1..], block);
    }
  }

  lemma {:induction false} CodeIsUniform(nodes: seq<Node>)
    ensures ReadAll(nodes, Listing) == Uniform(InlineText(nodes), [], CodeBlock)
    decreases |nodes|
  {
    hide Words, NodeText, Uniform;
    if nodes == [] {
      FirstUniform("", [], CodeBlock);
    } else {
      CodeIsUniform(nodes[1..]);
      WordsAreText(nodes[0], false, CodeBlock);
      UniformAppend(NodeText(nodes[0]), InlineText(nodes[1..]), CodeBlock);
    }
  }

  lemma UniformAppend(a: string, b: string, block: BlockKind)
    ensures Uniform(a + b, [], block) == Uniform(a, [], block) + Uniform(b, [], block)
  {
  }

  lemma CodeSeen(content: seq<Node>)
    ensures SeenInAll([EditorLine(CodeBlock, InlineText(content), [], None, None)]) == ReadAll(content, Listing)
  {
    hide InlineText, ReadAll, Letters, Uniform;
    var line := EditorLine(CodeBlock, InlineText(content), [], None, None);
    CodeIsUniform(content);
    forall q: nat
      ensures StylesAt([], q) == []
    {
    }
    Stretch(line, 0, line.text, []);
    assert Letters(line, |line.text|) == [] by { LettersEnd(line); }
    SeenOne(line);
  }

  lemma LettersEnd(line: EditorLine)
    ensures Letters(line, |line.text|) == []
  {
  }

  lemma {:induction false} MixedFromSeen(children: seq<Node>, i: nat, block: BlockKind, start: Option<nat>)
    requires i <= |children| && block != Image
    ensures SeenInAll(MixedFrom(children, i, block, start)) == ReadAll(children[i..], Prose(block))
    decreases |children| - i
  {
    hide ReadNode, TextLine, SeenIn, ImageSrc, WordsOf;
    if i == |children| {
      assert children[i..] == [];
    } else if IsImage(children[i]) {
      MixedFromSeen(children, i + 1, block, start);
      TailOfDrop(children, i);
      PictureSeen(children[i], block);
      SeenAppend(ImageLines(children[i].attrs), MixedFrom(children, i + 1, block, start));
    } else {
      var j := ChunkEnd(children, i);
      MixedFromSeen(children, j, block, start);
      assert children[i..] == children[i..j] + children[j..];
      ReadAppend(children[i..j], children[j..], Prose(block));
      ProseIsWords(children[i..j], block);
      TextLineSeen(block, children[i..j], start);
      SeenAppend([TextLine(block, children[i..j], start)], MixedFrom(children, j, block, start));
    }
  }

  lemma PictureSeen(node: Node, block: BlockKind)
    requires IsImage(node)
    ensures SeenInAll(ImageLines(node.attrs)) == Illustration(node.attrs) == ReadNode(node, Prose(block))
  {
    hide ImageSrc, Illustration;
    IllustrationIs(node.attrs);
    match ImageSrc(node.attrs)
    case None =>
    case Some(src) => SeenOne(ImageLine(src));
  }

  lemma MixedSeen(children: seq<Node>, block: BlockKind, start: Option<nat>)
    requires block != Image
    ensures SeenInAll(Mixed(children, block, start)) == ReadAll(children, Prose(block))
  {
    hide ReadAll, MixedFrom;
    if children == [] {
      var line := EditorLine(block, "", [], None, start);
      SeenOne(line);
      assert ReadAll([], Prose(block)) == [] by { NothingRead(Prose(block)); }
    } else {
      MixedFromSeen(children, 0, block, start);
      assert children[0..] == children;
    }
  }

  lemma NothingRead(at: Where)
    ensures ReadAll([], at) == []
  {
  }

  // ---- Blocks, however nested ----

  lemma {:induction false} BlockSeen(node: Node)
    ensures SeenInAll(Block(node)) == ReadBlock(node)
    decreases node, 2
  {
    hide SeenInAll, Mixed, Items, Tasks, Quoted, Blocks, ReadAll, Illustration, ImageLines, TextLine;
    assert LevelOf(node.attrs) == HeadingLevel(node.attrs);
    MixedSeen(node.content, Paragraph, None);
    TextLineSeen(Heading(HeadingLevel(node.attrs)), node.content, None);
    TitleIsWords(node.content, HeadingLevel(node.attrs));
    CodeSeen(node.content);
    QuotedSeen(node.content);
    ItemsSeen(node.content, BulletItem, None);
    ItemsSeen(node.content, OrderedItem, ListStart(node, OrderedItem));
    TasksSeen(node.content);
    BlocksSeen(node.content);
    if node.kind == "image" {
      PictureSeen(node, Paragraph);
    }
  }

  lemma {:induction false} BlocksSeen(nodes: seq<Node>)
    ensures SeenInAll(Blocks(nodes)) == ReadAll(nodes, Body)
    decreases nodes, 1
  {
    hide Block, ReadBlock, SeenIn;
    if nodes != [] {
      BlockSeen(nodes[0]);
      BlocksSeen(nodes[1..]);
      SeenAppend(Block(nodes[0]), Blocks(nodes[1..]));
    }
  }

  lemma {:induction false} QuotedSeen(nodes: seq<Node>)
    ensures SeenInAll(Quoted(nodes)) == ReadAll(nodes, Quote)
    decreases nodes, 1
  {
    hide Block, ReadBlock, SeenIn, Mixed;
    if nodes != [] {
      BlockSeen(nodes[0]);
      MixedSeen(nodes[0].content, Blockquote, None);
      QuotedSeen(nodes[1..]);
      SeenAppend(if nodes[0].kind == "paragraph" then Mixed(nodes[0].content, Blockquote, None) else Block(nodes[0]),
                 Quoted(nodes[1..]));
    }
  }

  lemma {:induction false} EntrySeen(blocks: seq<Node>, kind: BlockKind, start: Option<nat>)
    requires kind != Image
    ensures SeenInAll(ItemBlocks(blocks, kind, start).0) == ReadAll(blocks, Entry(kind))
    decreases blocks, 1
  {
    hide Block, ReadBlock, SeenIn, Mixed;
    if blocks != [] {
      if blocks[0].kind == "paragraph" {
        MixedSeen(blocks[0].content, kind, start);
        EntrySeen(blocks[1..], kind, None);
        SeenAppend(Mixed(blocks[0].content, kind, start), ItemBlocks(blocks[1..], kind, None).0);
      } else {
        BlockSeen(blocks[0]);
        EntrySeen(blocks[1..], kind, start);
        SeenAppend(Block(blocks[0]), ItemBlocks(blocks[1..], kind, start).0);
      }
    }
  }

  lemma {:induction false} ItemsSeen(items: seq<Node>, kind: BlockKind, start: Option<nat>)
    requires kind != Image
    ensures SeenInAll(Items(items, kind, start)) == ReadAll(items, List(kind))
    decreases items, 1
  {
    hide ItemBlocks, SeenIn, ReadNode;
    if items != [] {
      ItemRead(items[0], kind);
      if items[0].kind == "listItem" {
        var item := ItemBlocks(items[0].content, kind, start);
        EntrySeen(items[0].content, kind, start);
        ItemsSeen(items[1..], kind, item.1);
        SeenAppend(item.0, Items(items[1..], kind, item.1));
      } else {
        ItemsSeen(items[1..], kind, start);
        assert [] + ReadAll(items[1..], List(kind)) == ReadAll(items[1..], List(kind));
      }
    }
  }

  lemma ItemRead(item: Node, kind: BlockKind)
    ensures ReadNode(item, List(kind)) == if item.kind == "listItem" then ReadAll(item.content, Entry(kind)) else []
  {
    hide ReadAll, ReadBlock;
  }

  lemma {:induction false} TaskSeen(blocks: seq<Node>, checked: bool)
    ensures SeenInAll(TaskBlocks(blocks, checked)) == ReadAll(blocks, Task(checked))
    decreases |blocks|
  {
    hide Mixed, SeenIn;
    if blocks != [] {
      MixedSeen(blocks[0].content, TaskItem(checked), None);
      TaskSeen(blocks[1..], checked);
      SeenAppend(if blocks[0].kind == "paragraph" then Mixed(blocks[0].content, TaskItem(checked), None) else [],
                 TaskBlocks(blocks[1..], checked));
    }
  }

  lemma {:induction false} TasksSeen(items: seq<Node>)
    ensures SeenInAll(Tasks(items)) == ReadAll(items, TaskList)
    decreases |items|
  {
    hide TaskBlocks, SeenIn;
    if items != [] {
      var checked := Attr(items[0].attrs, "checked") == Bool(true);
      TaskSeen(items[0].content, checked);
      TasksSeen(items[1..]);
      SeenAppend(if items[0].kind == "taskItem" then TaskBlocks(items[0].content, checked) else [], Tasks(items[1..]));
    }
  }

  /** Every document, however nested, is loaded as it reads: every character that the reading does not
      pass over, with its styles and its block, and every image, once and in order. */
  lemma LoadedAsRead(doc: Node)
    ensures SeenInAll(LinesFromDoc(doc)) == ReadAll(doc.content, Body)
  {
    hide SeenInAll, ReadAll;
    BlocksSeen(doc.content);
  }

  // ---- Where a list's number goes ----

  /** No item of these begins a numbered line: none holds a paragraph itself. */
  predicate NoParagraphs(items: seq<Node>) {
    forall i, b :: i in items && i.kind == "listItem" && b in i.content ==> b.kind != "paragraph"
  }

  lemma {:induction false} NoneTaken(blocks: seq<Node>, kind: BlockKind, start: Option<nat>)
    requires forall b :: b in blocks ==> b.kind != "paragraph"
    ensures ItemBlocks(blocks, kind, start) == (ItemBlocks(blocks, kind, None).0, start)
    decreases |blocks|
  {
    hide Block, Mixed;
    if blocks != [] {
      assert blocks[0] in blocks;
      NoneTaken(blocks[1..], kind, start);
      NoneTaken(blocks[1..], kind, None);
    }
  }

  lemma {:induction false} Untaken(blocks: seq<Node>, kind: BlockKind)
    ensures ItemBlocks(blocks, kind, None).1 == None
    decreases |blocks|
  {
    hide Block, Mixed;
    if blocks != [] {
      Untaken(blocks[1..], kind);
    }
  }

  /** The blocks before the first paragraph leave the number, that paragraph takes it, and none is left. */
  lemma {:induction false} FirstParagraphTakes(before: seq<Node>, paragraph: Node, after: seq<Node>, kind: BlockKind,
                                               start: Option<nat>)
    requires paragraph.kind == "paragraph" && forall b :: b in before ==> b.kind != "paragraph"
    ensures ItemBlocks(before + [paragraph] + after, kind, start) ==
            (ItemBlocks(before, kind, None).0 + (Mixed(paragraph.content, kind, start) + ItemBlocks(after, kind, None).0), None)
    decreases |before|
  {
    hide Block, Mixed;
    if before == [] {
      assert [] + [paragraph] + after == [paragraph] + after;
      TailOfAppend([paragraph], after);
      assert [paragraph][1..] + after == after;
      Untaken(after, kind);
      assert [] + (Mixed(paragraph.content, kind, start) + ItemBlocks(after, kind, None).0)
          == Mixed(paragraph.content, kind, start) + ItemBlocks(after, kind, None).0;
    } else {
      assert before[0] in before;
      assert before + [paragraph] + after == before + ([paragraph] + after);
      assert before[1..] + [paragraph] + after == before[1..] + ([paragraph] + after);
      TailOfAppend(before, [paragraph] + after);
      FirstParagraphTakes(before[1..], paragraph, after, kind, start);
      Associative(Block(before[0]), ItemBlocks(before[1..], kind, None).0,
                  Mixed(paragraph.content, kind, start) + ItemBlocks(after, kind, None).0);
    }
  }

  /** The number of a list goes to the first paragraph that an item holds itself, wherever that is, and to
      no other line. */
  lemma {:induction false} NumberGoesToFirst(before: seq<Node>, item: Node, a: seq<Node>, paragraph: Node, b: seq<Node>,
                                             after: seq<Node>, kind: BlockKind, start: Option<nat>)
    requires NoParagraphs(before) && item.kind == "listItem" && item.content == a + [paragraph] + b
    requires paragraph.kind == "paragraph" && forall x :: x in a ==> x.kind != "paragraph"
    ensures Items(before + [item] + after, kind, start) ==
            Items(before, kind, None)
            + (ItemBlocks(a, kind, None).0 + (Mixed(paragraph.content, kind, start) + ItemBlocks(b, kind, None).0)
               + Items(after, kind, None))
    decreases |before|
  {
    hide ItemBlocks, Mixed;
    FirstParagraphTakes(a, paragraph, b, kind, start);
    var own := ItemBlocks(item.content, kind, start).0;
    if before == [] {
      assert [] + [item] + after == [item] + after;
      TailOfAppend([item], after);
      assert [item][1..] + after == after;
      assert [] + (own + Items(after, kind, None)) == own + Items(after, kind, None);
    } else {
      assert before[0] in before;
      assert NoParagraphs(before[1..]);
      assert before + [item] + after == before + ([item] + after);
      assert before[1..] + [item] + after == before[1..] + ([item] + after);
      TailOfAppend(before, [item] + after);
      NumberGoesToFirst(before[1..], item, a, paragraph, b, after, kind, start);
      if before[0].kind == "listItem" {
        NoneTaken(before[0].content, kind, start);
        NoneTaken(before[0].content, kind, None);
        Associative(ItemBlocks(before[0].content, kind, None).0, Items(before[1..], kind, None), own + Items(after, kind, None));
      }
    }
  }
}
