/** Old documents: a list of insert operations turned into a TipTap tree through three
    accumulators, without losing, repeating or moving a character, a style or an image. */
module Quill {
  import opened Basics
  import opened TipTap
  import DocRoundTrip

  // ---- Operations ----

  datatype ImageValue = Plain(s: string) | Keyed(src: Json, url: Json) | NotAnImage

  datatype Insert =
    | Text(text: string)
    | Embed(image: ImageValue)   // a non-empty object
    | Nothing                    // missing, or of any other shape

  datatype Attributes = Attributes(
    bold: bool, italic: bool, underline: bool, strike: bool, link: Option<string>,
    header: Option<nat>, list: Option<string>)

  datatype Op = Op(insert: Insert, attrs: Attributes)

  /** The source of an embedded image, trimmed; the first string found decides, even a blank one. */
  function QuillImageSrc(image: ImageValue): Option<string> {
    var found := match image
                 case Plain(s) => Some(s)
                 case Keyed(Str(s), _) => Some(s)
                 case Keyed(_, Str(s)) => Some(s)
                 case _ => None;
    if found.None? || Trim(found.value) == "" then None else Some(Trim(found.value))
  }

  lemma SourceIsTrimmed(image: ImageValue)
    ensures QuillImageSrc(image).Some? ==> IsSource(QuillImageSrc(image).value)
  {
    hide Trim;
    match image
    case Plain(s) => DocRoundTrip.TrimIsIdempotent(s);
    case Keyed(Str(s), _) => DocRoundTrip.TrimIsIdempotent(s);
    case Keyed(_, Str(s)) => DocRoundTrip.TrimIsIdempotent(s);
    case _ =>
  }

  /** A source given plainly counts before one under `src`, and that before one under `url`, even when it
      is blank; and a blank source is none. */
  lemma SourceExactly(s: string, src: Json, url: Json)
    ensures QuillImageSrc(Plain(s)) == if Trim(s) == "" then None else Some(Trim(s))
    ensures QuillImageSrc(Keyed(Str(s), url)) == QuillImageSrc(Plain(s))
    ensures !src.Str? ==> QuillImageSrc(Keyed(src, Str(s))) == QuillImageSrc(Plain(s))
    ensures !src.Str? && !url.Str? ==> QuillImageSrc(Keyed(src, url)) == None
    ensures QuillImageSrc(NotAnImage) == None
  {
    hide Trim;
  }

  // ---- What is conserved ----

  /** A character with its styles, or an image. */
  datatype Atom = Character(c: char, marks: seq<Mark>) | Picture(src: string)

  function MarksOf(a: Attributes): seq<Mark> {
    (if a.bold then [Mark("bold", None)] else []) +
    (if a.italic then [Mark("italic", None)] else []) +
    (if a.underline then [Mark("underline", None)] else []) +
    (if a.strike then [Mark("strike", None)] else []) +
    (if a.link.Some? then [Mark("link", Some(map["href" := Str(a.link.value)]))] else [])
  }

  /** Characters of s that are not newlines, all in one style. */
  function Styled(s: string, marks: seq<Mark>): seq<Atom> {
    if s == [] then []
    else (if s[0] == '\n' then [] else [Character(s[0], marks)]) + Styled(s[1..], marks)
  }

  function OpAtoms(op: Op): seq<Atom> {
    match op.insert
    case Text(text) => Styled(text, MarksOf(op.attrs))
    case Embed(image) =>
      (match QuillImageSrc(image)
       case None => []
       case Some(src) => [Picture(src)])
    case Nothing => []
  }

  function OpsAtoms(ops: seq<Op>): seq<Atom> {
    if ops == [] then [] else OpAtoms(ops[0]) + OpsAtoms(ops[1..])
  }

  /** Atoms of a tree, in document order. */
  function NodeAtoms(node: Node): seq<Atom>
    decreases node, 1
  {
    if node.kind == "text" then Styled(node.text.GetOr(""), node.marks.GetOr([]))
    else if node.kind == "image" then
      (match Attr(node.attrs, "src")
       case Str(src) => [Picture(src)]
       case _ => [])
    else NodesAtoms(node.content)
  }

  function NodesAtoms(nodes: seq<Node>): seq<Atom>
    decreases nodes, 0
  {
    if nodes == [] then [] else NodeAtoms(nodes[0]) + NodesAtoms(nodes[1..])
  }

  lemma {:induction false} NodesAtomsAppend(a: seq<Node>, b: seq<Node>)
    ensures NodesAtoms(a + b) == NodesAtoms(a) + NodesAtoms(b)
  {
    hide NodeAtoms;
    if a == [] {
      assert a + b == b;
    } else {
      assert (a + b)[1..] == a[1..] + b;
      NodesAtomsAppend(a[1..], b);
    }
  }

  lemma NodesAtomsOne(node: Node)
    ensures NodesAtoms([node]) == NodeAtoms(node)
  {
    hide NodeAtoms;
    assert [node][1..] == [];
  }

  lemma {:induction false} StyledAppend(a: string, b: string, marks: seq<Mark>)
    ensures Styled(a + b, marks) == Styled(a, marks) + Styled(b, marks)
  {
    if a == [] {
      assert a + b == b;
    } else {
      assert (a + b)[1..] == a[1..] + b;
      StyledAppend(a[1..], b, marks);
    }
  }

  lemma {:induction false} OpsAtomsSnoc(ops: seq<Op>, op: Op)
    ensures OpsAtoms(ops + [op]) == OpsAtoms(ops) + OpAtoms(op)
  {
    hide OpAtoms;
    if ops == [] {
      assert ([op])[1..] == [];
    } else {
      assert (ops + [op])[1..] == ops[1..] + [op];
      OpsAtomsSnoc(ops[1..], op);
    }
  }

  // ---- What is well formed ----

  predicate IsTextNode(node: Node) {
    node.kind == "text" && node.text.Some? && node.text.value != "" && '\n' !in node.text.value
    && (node.marks.Some? ==> node.marks.value != [])
  }

  predicate Inlines(nodes: seq<Node>) {
    nodes != [] && forall n :: n in nodes ==> IsTextNode(n)
  }

  predicate IsListItem(node: Node) {
    node.kind == "listItem" && |node.content| == 1 && node.content[0].kind == "paragraph" && Inlines(node.content[0].content)
  }

  predicate IsSource(src: string) {
    src != "" && Trim(src) == src
  }

  /** Non-empty paragraphs and headings of text, lists of at least one item, items of exactly one
      non-empty paragraph, and images with a trimmed source. */
  predicate IsBlock(node: Node) {
    || (node.kind in {"paragraph", "heading"} && Inlines(node.content))
    || (node.kind in {"orderedList", "bulletList"} && node.content != [] && forall n :: n in node.content ==> IsListItem(n))
    || (node.kind == "image" && Attr(node.attrs, "src").Str? && IsSource(Attr(node.attrs, "src").s))
  }

  function ParagraphOf(content: seq<Node>): Node {
    Node("paragraph", None, content, None, None)
  }

  function ItemOf(paragraph: Node): Node {
    Node("listItem", None, [paragraph], None, None)
  }

  function ListOf(kind: string, items: seq<Node>): Node {
    Node(kind, None, items, None, None)
  }

  function ImageOf(src: string): Node {
    Node("image", Some(map["src" := Str(src)]), [], None, None)
  }

  function HeadingOf(level: nat, content: seq<Node>): Node {
    Node("heading", Some(map["level" := Num(level)]), content, None, None)
  }

  function TextOf(line: string, marks: seq<Mark>): Node {
    Node("text", None, [], Some(line), if marks == [] then None else Some(marks))
  }

  datatype OpenList = OpenList(kind: string, items: seq<Node>)

  lemma ParagraphAtoms(content: seq<Node>)
    ensures NodeAtoms(ParagraphOf(content)) == NodesAtoms(content)
    ensures NodeAtoms(ItemOf(ParagraphOf(content))) == NodesAtoms(content)
  {
    NodesAtomsOne(ParagraphOf(content));
  }

  lemma TextAtoms(line: string, marks: seq<Mark>)
    ensures NodeAtoms(TextOf(line, marks)) == Styled(line, marks)
  {
  }

  lemma {:induction false} NewlinesVanish(marks: seq<Mark>)
    ensures Styled("\n", marks) == [] && Styled("", marks) == []
  {
    assert "\n"[1..] == "";
  }

  function LinesAtoms(lines: seq<string>, marks: seq<Mark>): seq<Atom> {
    if lines == [] then [] else Styled(lines[0], marks) + LinesAtoms(lines[1..], marks)
  }

  /** Splitting at newlines keeps every other character. */
  lemma {:induction false} LinesKeep(text: string, marks: seq<Mark>)
    ensures LinesAtoms(Segments(text), marks) == Styled(text, marks)
  {
    hide Styled;
    NewlinesVanish(marks);
    if text == [] {
      assert [""][1..] == [];
    } else {
      var rest, head := Segments(text[1..]), [text[0]];
      LinesKeep(text[1..], marks);
      assert text == head + text[1..];
      StyledAppend(head, text[1..], marks);
      if text[0] == '\n' {
        assert head == "\n";
        assert ([""] + rest)[1..] == rest;
      } else {
        assert ([head + rest[0]] + rest[1..])[1..] == rest[1..];
        StyledAppend(head, rest[0], marks);
      }
    }
  }

  lemma {:induction false} LinesHoldNoNewline(text: string)
    ensures forall l :: l in Segments(text) ==> '\n' !in l
  {
    if text != [] {
      LinesHoldNoNewline(text[1..]);
      assert Segments(text[1..])[0] in Segments(text[1..]);
    }
  }

  // ---- The conversion ----

  /** The three accumulators. */
  datatype State = State(doc: seq<Node>, paragraph: seq<Node>, list: Option<OpenList>)

  const NOTHING := State([], [], None)

  /** The open paragraph becomes an item of the open list, or a block. */
  function ParagraphFlushed(s: State): State {
    if s.paragraph == [] then s
    else
      var paragraph := ParagraphOf(s.paragraph);
      match s.list
      case Some(list) => State(s.doc, [], Some(list.(items := list.items + [ItemOf(paragraph)])))
      case None => State(s.doc + [paragraph], [], None)
  }

  /** The open list, when it has items, becomes a block. */
  function ListFlushed(s: State): State {
    match s.list
    case Some(list) => State(if list.items == [] then s.doc else s.doc + [ListOf(list.kind, list.items)], s.paragraph, None)
    case None => s
  }

  function BothFlushed(s: State): State {
    ListFlushed(ParagraphFlushed(s))
  }

  function ListKind(list: string): string {
    if list == "ordered" then "orderedList" else "bulletList"
  }

  /** A newline of its own, with the attributes of the line it ends. */
  function LineEnded(s: State, attrs: Attributes): State {
    if attrs.header.Some? then
      if s.paragraph == [] then s
      else
        var t := ListFlushed(s);
        t.(doc := t.doc + [HeadingOf(attrs.header.value, s.paragraph)], paragraph := [])
    else if attrs.list.Some? then
      var kind := ListKind(attrs.list.value);
      ParagraphFlushed(if s.list.Some? && s.list.value.kind == kind then s
                       else ListFlushed(s).(list := Some(OpenList(kind, []))))
    else BothFlushed(s)
  }

  /** One line of an inserted text; a line that is not the last ends its paragraph and any list. */
  function LineAdded(s: State, line: string, marks: seq<Mark>, last: bool): State {
    var t := if line == "" then s else s.(paragraph := s.paragraph + [TextOf(line, marks)]);
    if last then t else BothFlushed(t)
  }

  function LinesAdded(s: State, lines: seq<string>, marks: seq<Mark>): State
    decreases |lines|
  {
    if lines == [] then s else LinesAdded(LineAdded(s, lines[0], marks, |lines| == 1), lines[1..], marks)
  }

  function ImageAdded(s: State, src: string): State {
    var t := BothFlushed(s);
    t.(doc := t.doc + [ImageOf(src)])
  }

  function Applied(s: State, op: Op): State {
    match op.insert
    case Embed(image) => if QuillImageSrc(image).Some? then ImageAdded(s, QuillImageSrc(image).value) else s
    case Nothing => s
    case Text(text) =>
      if text == "\n" then LineEnded(s, op.attrs) else LinesAdded(s, Segments(text), MarksOf(op.attrs))
  }

  function AppliedAll(ops: seq<Op>): State {
    if ops == [] then NOTHING else Applied(AppliedAll(ops[..|ops| - 1]), ops[|ops| - 1])
  }

  function Converted(ops: seq<Op>): Node {
    var content := BothFlushed(AppliedAll(ops)).doc;
    Node("doc", None, if content == [] then [ParagraphOf([])] else content, None, None)
  }

  class Converter {
    var docContent: seq<Node>
    var currentParagraph: seq<Node>
    var currentList: Option<OpenList>

    function View(): State
      reads this
    {
      State(docContent, currentParagraph, currentList)
    }

    function ListItems(): seq<Node>
      reads this
    {
      if currentList.None? then [] else currentList.value.items
    }

    /** Everything taken in so far, in order: the document, the open list, the open paragraph. */
    function Atoms(): seq<Atom>
      reads this
    {
      NodesAtoms(docContent) + NodesAtoms(ListItems()) + NodesAtoms(currentParagraph)
    }

    ghost predicate Valid()
      reads this
    {
      && (forall n :: n in docContent ==> IsBlock(n))
      && (forall n :: n in currentParagraph ==> IsTextNode(n))
      && (currentList.Some? ==>
            && currentList.value.kind in {"orderedList", "bulletList"}
            && forall n :: n in currentList.value.items ==> IsListItem(n))
    }

    /** With nothing open, everything is in the document. */
    lemma AllInDocument()
      requires Valid() && currentList == None && currentParagraph == []
      ensures Atoms() == NodesAtoms(docContent) && View().doc == docContent && forall n :: n in docContent ==> IsBlock(n)
    {
      NothingThere();
    }

    lemma StartsEmpty()
      requires docContent == [] && currentParagraph == [] && currentList == None
      ensures View() == NOTHING
    {
    }

    constructor ()
      ensures Valid() && Atoms() == [] && docContent == [] && currentParagraph == [] && currentList == None
    {
      docContent, currentParagraph, currentList := [], [], None;
    }

    /** The open paragraph becomes an item of the open list, or a block. */
    method FlushParagraph()
      requires Valid()
      modifies this
      ensures Valid() && Atoms() == old(Atoms()) && currentParagraph == []
      ensures View() == ParagraphFlushed(old(View()))
    {
      hide NodesAtoms, NodeAtoms;
      if currentParagraph == [] {
        return;
      }
      var paragraph := ParagraphOf(currentParagraph);
      NothingThere();
      ParagraphAtoms(currentParagraph);
      NodesAtomsOne(paragraph);
      NodesAtomsOne(ItemOf(paragraph));
      currentParagraph := [];
      if currentList.Some? {
        NodesAtomsAppend(currentList.value.items, [ItemOf(paragraph)]);
        currentList := Some(currentList.value.(items := currentList.value.items + [ItemOf(paragraph)]));
      } else {
        NodesAtomsAppend(docContent, [paragraph]);
        docContent := docContent + [paragraph];
      }
    }

    /** The open list, when it has items, becomes a block. */
    method FlushList()
      requires Valid()
      modifies this`docContent, this`currentList
      ensures Valid() && Atoms() == old(Atoms()) && currentList == None
      ensures View() == ListFlushed(old(View()))
    {
      hide NodesAtoms, NodeAtoms;
      NothingThere();
      if currentList.Some? {
        var list := currentList.value;
        currentList := None;
        if list.items != [] {
          ListAtoms(list.kind, list.items);
          NodesAtomsOne(ListOf(list.kind, list.items));
          NodesAtomsAppend(docContent, [ListOf(list.kind, list.items)]);
          docContent := docContent + [ListOf(list.kind, list.items)];
        }
      }
    }

    method AddImage(src: string)
      requires Valid() && IsSource(src)
      modifies this
      ensures Valid() && Atoms() == old(Atoms()) + [Picture(src)]
      ensures View() == ImageAdded(old(View()), src)
    {
      hide NodesAtoms, NodeAtoms, IsSource;
      FlushParagraph();
      FlushList();
      NothingThere();
      ImageAtoms(src);
      NodesAtomsOne(ImageOf(src));
      NodesAtomsAppend(docContent, [ImageOf(src)]);
      docContent := docContent + [ImageOf(src)];
    }

    /** A newline of its own carries the block attributes of the line before it. */
    method EndLine(attrs: Attributes)
      requires Valid()
      modifies this
      ensures Valid() && Atoms() == old(Atoms())
      ensures View() == LineEnded(old(View()), attrs)
    {
      hide NodesAtoms, NodeAtoms;
      if attrs.header.Some? {
        if currentParagraph != [] {
          FlushList();
          NothingThere();
          var heading := HeadingOf(attrs.header.value, currentParagraph);
          HeadingAtoms(attrs.header.value, currentParagraph);
          NodesAtomsOne(heading);
          NodesAtomsAppend(docContent, [heading]);
          docContent := docContent + [heading];
          currentParagraph := [];
        }
        return;
      }
      if attrs.list.Some? {
        var listType := ListKind(attrs.list.value);
        if currentList.None? || currentList.value.kind != listType {
          FlushList();
          NothingThere();
          currentList := Some(OpenList(listType, []));
        }
        FlushParagraph();
        return;
      }
      FlushParagraph();
      FlushList();
    }

    /** One line of an insert; a line that is not the last ends its paragraph and any list. */
    method AddLine(line: string, marks: seq<Mark>, last: bool)
      requires Valid() && '\n' !in line
      modifies this
      ensures Valid() && Atoms() == old(Atoms()) + Styled(line, marks)
      ensures View() == LineAdded(old(View()), line, marks, last)
    {
      hide NodesAtoms, NodeAtoms, Styled;
      NewlinesVanish(marks);
      if line != "" {
        var node := TextOf(line, marks);
        TextAtoms(line, marks);
        NodesAtomsOne(node);
        NodesAtomsAppend(currentParagraph, [node]);
        currentParagraph := currentParagraph + [node];
      }
      assert Atoms() == old(Atoms()) + Styled(line, marks);
      if !last {
        FlushParagraph();
        FlushList();
      }
    }

    method AddText(text: string, attrs: Attributes)
      requires Valid()
      modifies this
      ensures Valid() && Atoms() == old(Atoms()) + Styled(text, MarksOf(attrs))
      ensures View() == LinesAdded(old(View()), Segments(text), MarksOf(attrs))
    {
      hide *;
      var marks := MarksOf(attrs);
      var lines := Segments(text);
      LinesKeep(text, marks);
      LinesHoldNoNewline(text);
      assert lines[0..] == lines;
      var i := 0;
      ghost var before := Atoms();
      ghost var todo := LinesAtoms(lines, marks);
      while i < |lines|
        invariant 0 <= i <= |lines| && Valid()
        invariant todo == LinesAtoms(lines[i..], marks)
        invariant LinesAdded(View(), lines[i..], marks) == LinesAdded(old(View()), lines, marks)
        invariant Atoms() + todo == before + Styled(text, marks)
      {
        LinesAtomsStep(lines, i, marks);
        LinesAddedStep(View(), lines, i, marks);
        assert lines[i] in lines;
        ghost var was, own, rest := Atoms(), Styled(lines[i], marks), LinesAtoms(lines[i + 1..], marks);
        assert was + (own + rest) == was + own + rest;
        todo := rest;
        AddLine(lines[i], marks, i + 1 == |lines|);
        i := i + 1;
      }
      NoLinesNoAtoms(View(), marks);
      assert lines[i..] == [];
      assert Atoms() + [] == Atoms();
    }

    method Apply(op: Op)
      requires Valid()
      modifies this
      ensures Valid() && Atoms() == old(Atoms()) + OpAtoms(op)
      ensures View() == Applied(old(View()), op)
    {
      hide NodesAtoms, NodeAtoms, QuillImageSrc, LinesAdded, LineEnded, ImageAdded;
      match op.insert
      case Embed(image) =>
        var src := QuillImageSrc(image);
        if src.Some? {
          SourceIsTrimmed(image);
          AddImage(src.value);
        }
      case Nothing =>
      case Text(text) =>
        if text == "\n" {
          NewlinesVanish(MarksOf(op.attrs));
          EndLine(op.attrs);
        } else {
          AddText(text, op.attrs);
        }
    }
  }

  /** The converted document holds every character that is not a newline, with its styles, and every
      image, in the order of the operations; its blocks are well formed, and it is never empty. */
  method QuillDeltaToTipTap(ops: seq<Op>) returns (doc: Node)
    ensures doc == Converted(ops) && doc.kind == "doc" && doc.content != []
    ensures NodeAtoms(doc) == OpsAtoms(ops)
    ensures (forall n :: n in doc.content ==> IsBlock(n)) || doc.content == [ParagraphOf([])]
    ensures OpsAtoms(ops) != [] ==> forall n :: n in doc.content ==> IsBlock(n)
  {
    hide *;
    NothingThere();
    var c := new Converter();
    assert ops[..0] == [];
    NoOpsNoAtoms();
    c.StartsEmpty();
    for i := 0 to |ops|
      invariant fresh(c) && c.Valid() && c.Atoms() == OpsAtoms(ops[..i])
      invariant c.View() == AppliedAll(ops[..i])
    {
      assert ops[..i + 1] == ops[..i] + [ops[i]];
      OpsAtomsSnoc(ops[..i], ops[i]);
      AppliedSnoc(ops[..i], ops[i]);
      c.Apply(ops[i]);
    }
    assert ops[..|ops|] == ops;
    c.FlushParagraph();
    c.FlushList();
    var content := c.docContent;
    c.AllInDocument();
    ConvertedIs(ops);
    if content == [] {
      content := [ParagraphOf([])];
      ParagraphAtoms([]);
      NodesAtomsOne(ParagraphOf([]));
    }
    DocAtoms(content);
    doc := Node("doc", None, content, None, None);
  }

  lemma LinesAtomsStep(lines: seq<string>, i: nat, marks: seq<Mark>)
    requires i < |lines|
    ensures LinesAtoms(lines[i..], marks) == Styled(lines[i], marks) + LinesAtoms(lines[i + 1..], marks)
  {
    hide Styled;
    assert lines[i..][1..] == lines[i + 1..];
  }

  lemma NoOpsNoAtoms()
    ensures OpsAtoms([]) == [] && AppliedAll([]) == NOTHING
  {
  }

  lemma AppliedSnoc(ops: seq<Op>, op: Op)
    ensures AppliedAll(ops + [op]) == Applied(AppliedAll(ops), op)
  {
    hide Applied;
    assert (ops + [op])[..|ops|] == ops;
  }

  lemma ConvertedIs(ops: seq<Op>)
    ensures var content := ListFlushed(ParagraphFlushed(AppliedAll(ops))).doc;
            Converted(ops) == Node("doc", None, if content == [] then [ParagraphOf([])] else content, None, None)
  {
    hide AppliedAll, ListFlushed, ParagraphFlushed;
  }

  // ---- Where a line ends up ----

  /** A line as an editor writes it: its text, then a newline that carries the block attributes. */
  function WithLine(s: State, text: string, style: Attributes, end: Attributes): State {
    Applied(Applied(s, Op(Text(text), style)), Op(Text("\n"), end))
  }

  lemma OneLine(text: string)
    requires '\n' !in text
    ensures Segments(text) == [text]
  {
    if text != [] {
      OneLine(text[1..]);
      assert [text[0]] + text[1..] == text;
    }
  }

  lemma TextJoinsParagraph(s: State, text: string, style: Attributes)
    requires text != "" && '\n' !in text
    ensures Applied(s, Op(Text(text), style)) == s.(paragraph := s.paragraph + [TextOf(text, MarksOf(style))])
  {
    hide MarksOf, Segments;
    OneLine(text);
    assert text != "\n" by { assert text[0] in text; }
    var marks := MarksOf(style);
    assert [text][1..] == [];
    assert LinesAdded(s, [text], marks) == LinesAdded(LineAdded(s, text, marks, true), [], marks);
  }

  /** The content of a line whose last piece is text; earlier pieces are in the open paragraph. */
  function LineContent(s: State, text: string, style: Attributes): seq<Node> {
    s.paragraph + [TextOf(text, MarksOf(style))]
  }

  /** Headings close any list and keep their level; a list line goes to the open list of its own kind,
      or opens one. The line may have been written in any number of pieces. */
  lemma HeadingOrItem(s: State, text: string, style: Attributes, end: Attributes)
    requires text != "" && '\n' !in text && (end.header.Some? || end.list.Some?)
    ensures var content := LineContent(s, text, style);
            var after := WithLine(s, text, style, end);
            if end.header.Some? then
              after == State(ListFlushed(s).doc + [HeadingOf(end.header.value, content)], [], None)
            else
              var kind := ListKind(end.list.value);
              var item := ItemOf(ParagraphOf(content));
              after == if s.list.Some? && s.list.value.kind == kind
                       then State(s.doc, [], Some(OpenList(kind, s.list.value.items + [item])))
                       else State(ListFlushed(s).doc, [], Some(OpenList(kind, [item])))
  {
    hide MarksOf, ListKind, TextOf, WithLine;
    NewlineEnds(s, text, style, end);
    var item := ItemOf(ParagraphOf(LineContent(s, text, style)));
    assert [] + [item] == [item];
  }

  lemma NewlineEnds(s: State, text: string, style: Attributes, end: Attributes)
    requires text != "" && '\n' !in text
    ensures WithLine(s, text, style, end) == LineEnded(s.(paragraph := LineContent(s, text, style)), end)
  {
    hide LineEnded, MarksOf, TextOf;
    TextJoinsParagraph(s, text, style);
  }

  /** A newline with nothing before it: a heading is none, a list newline opens its list or leaves it open,
      a plain one ends the list. */
  lemma EmptyLineExactly(s: State, end: Attributes)
    requires s.paragraph == []
    ensures var after := Applied(s, Op(Text("\n"), end));
            if end.header.Some? then after == s
            else if end.list.None? then after == State(ListFlushed(s).doc, [], None)
            else
              var kind := if end.list.value == "ordered" then "orderedList" else "bulletList";
              after == if s.list.Some? && s.list.value.kind == kind then s
                       else State(ListFlushed(s).doc, [], Some(OpenList(kind, [])))
  {
  }

  /** What a plain line, with content as its text, makes of a state. */
  ghost predicate PlainLine(s: State, content: seq<Node>, after: State) {
    var paragraph := ParagraphOf(content);
    && (after == State(s.doc + [paragraph], [], None) <==> s.list.None?)
    && (s.list.Some? ==>
          after == State(s.doc + [ListOf(s.list.value.kind, s.list.value.items + [ItemOf(paragraph)])], [], None))
  }

  lemma PlainFlush(s: State, content: seq<Node>)
    requires content != [] && content[|content| - 1].kind == "text"
    ensures PlainLine(s, content, BothFlushed(s.(paragraph := content)))
  {
    if s.list.Some? {
      var paragraph := ParagraphOf(content);
      var list := ListOf(s.list.value.kind, s.list.value.items + [ItemOf(paragraph)]);
      assert (s.doc + [list])[|s.doc|] == list && (s.doc + [paragraph])[|s.doc|] == paragraph;
      assert list.content[|list.content| - 1] == ItemOf(paragraph);
    }
  }

  /** A plain line becomes a paragraph of the document exactly when no list is open; right after a
      list it is taken in as the last item. So it is with the newline in an operation of its own, and
      with the last text and the newline in one operation, whatever its attributes. */
  lemma PlainLineExactly(s: State, text: string, style: Attributes, end: Attributes)
    requires text != "" && '\n' !in text
    ensures end.header.None? && end.list.None? ==>
              PlainLine(s, LineContent(s, text, style), WithLine(s, text, style, end))
    ensures PlainLine(s, LineContent(s, text, style), Applied(s, Op(Text(text + "\n"), style)))
  {
    hide MarksOf, WithLine, PlainLine, Applied, BothFlushed;
    PlainFlush(s, LineContent(s, text, style));
    NewlineEnds(s, text, style, end);
    TextAndNewline(s, text, style);
  }

  lemma TextAndNewline(s: State, text: string, style: Attributes)
    requires text != "" && '\n' !in text
    ensures Applied(s, Op(Text(text + "\n"), style)) == BothFlushed(s.(paragraph := LineContent(s, text, style)))
  {
    hide MarksOf, Segments, BothFlushed, TextOf;
    var marks := MarksOf(style);
    LineAndNothing(text);
    assert |text + "\n"| > 1;
    var t := BothFlushed(s.(paragraph := LineContent(s, text, style)));
    assert [text, ""][1..] == [""] && [""][1..] == [];
    assert LinesAdded(s, [text, ""], marks) == LinesAdded(t, [""], marks);
    assert LinesAdded(t, [""], marks) == LinesAdded(t, [], marks) == t;
  }

  lemma {:induction false} LineAndNothing(text: string)
    requires '\n' !in text
    ensures Segments(text + "\n") == [text, ""]
  {
    if text == [] {
      assert text + "\n" == "\n" && "\n"[1..] == "";
    } else {
      assert (text + "\n")[1..] == text[1..] + "\n";
      LineAndNothing(text[1..]);
      assert [text[0]] + text[1..] == text;
    }
  }

  /** Text of several lines is the same in one operation as line by line; a newline that nothing precedes
      ends what is open, and an empty line adds nothing. */
  lemma LinesInOneOperation(s: State, first: string, others: string, style: Attributes)
    requires '\n' !in first
    ensures first != "" && others != "\n" ==>
              Applied(s, Op(Text(first + "\n" + others), style))
              == Applied(Applied(s, Op(Text(first + "\n"), style)), Op(Text(others), style))
    ensures others != "" && others != "\n" ==>
              Applied(s, Op(Text("\n" + others), style)) == Applied(BothFlushed(s), Op(Text(others), style))
    ensures first != "" ==>
              Applied(s, Op(Text(first + "\n" + "\n"), style)) == Applied(s, Op(Text(first + "\n"), style))
  {
    hide MarksOf, Segments, BothFlushed, TextOf;
    var marks := MarksOf(style);
    FirstSegment(first, others);
    FirstSegment(first, "\n");
    FirstSegment("", others);
    assert "" + "\n" + others == "\n" + others;
    if first != "" {
      TextAndNewline(s, first, style);
      var t := BothFlushed(s.(paragraph := LineContent(s, first, style)));
      TwoSegments(s, first, Segments(others), marks);
      FlushedTwice(s.(paragraph := LineContent(s, first, style)));
      NewlineSegments();
      TwoSegments(s, first, ["", ""], marks);
      assert ["", ""][1..] == [""] && [""][1..] == [];
      assert LinesAdded(t, ["", ""], marks) == LinesAdded(BothFlushed(t), [""], marks);
      assert LinesAdded(t, [""], marks) == LinesAdded(t, [], marks) == t;
    }
    TwoSegments(s, "", Segments(others), marks);
  }

  lemma NewlineSegments()
    ensures Segments("\n") == ["", ""]
  {
    assert "\n"[1..] == "";
  }

  lemma {:induction false} FirstSegment(first: string, others: string)
    requires '\n' !in first
    ensures Segments(first + "\n" + others) == [first] + Segments(others) && Segments(others) != []
  {
    var text := first + "\n" + others;
    if first == [] {
      assert text[1..] == others;
    } else {
      assert text[1..] == first[1..] + "\n" + others;
      FirstSegment(first[1..], others);
      assert [first[0]] + first[1..] == first;
      assert ([first[1..]] + Segments(others))[1..] == Segments(others);
    }
  }

  lemma TwoSegments(s: State, first: string, others: seq<string>, marks: seq<Mark>)
    requires others != []
    ensures LinesAdded(s, [first] + others, marks) ==
            LinesAdded(BothFlushed(if first == "" then s else s.(paragraph := s.paragraph + [TextOf(first, marks)])), others, marks)
  {
    hide BothFlushed, TextOf;
    assert ([first] + others)[1..] == others;
  }

  lemma FlushedTwice(s: State)
    ensures BothFlushed(BothFlushed(s)) == BothFlushed(s)
  {
  }

  const PLAIN := Attributes(false, false, false, false, None, None, None)

  /** The smallest such document: one bullet, then one paragraph, gives a list of two items. */
  lemma ParagraphAfterListIsTakenIn()
    ensures var bullet := PLAIN.(list := Some("bullet"));
            var a, b := ItemOf(ParagraphOf([TextOf("a", [])])), ItemOf(ParagraphOf([TextOf("b", [])]));
            WithLine(WithLine(NOTHING, "a", PLAIN, bullet), "b", PLAIN, PLAIN)
            == State([ListOf("bulletList", [a, b])], [], None)
  {
    hide WithLine, TextOf;
    var bullet := PLAIN.(list := Some("bullet"));
    var a, b := ItemOf(ParagraphOf([TextOf("a", [])])), ItemOf(ParagraphOf([TextOf("b", [])]));
    HeadingOrItem(NOTHING, "a", PLAIN, bullet);
    assert MarksOf(PLAIN) == [] && |"bullet"| != |"ordered"|;
    assert LineContent(NOTHING, "a", PLAIN) == [TextOf("a", [])];
    var s := WithLine(NOTHING, "a", PLAIN, bullet);
    assert s == State([], [], Some(OpenList("bulletList", [a])));
    PlainLineExactly(s, "b", PLAIN, PLAIN);
    assert LineContent(s, "b", PLAIN) == [TextOf("b", [])];
    assert [a] + [b] == [a, b] && [] + [ListOf("bulletList", [a, b])] == [ListOf("bulletList", [a, b])];
  }

  lemma LinesAddedStep(s: State, lines: seq<string>, i: nat, marks: seq<Mark>)
    requires i < |lines|
    ensures LinesAdded(s, lines[i..], marks)
         == LinesAdded(LineAdded(s, lines[i], marks, i + 1 == |lines|), lines[i + 1..], marks)
  {
    hide LineAdded;
    TailOfDrop(lines, i);
  }

  lemma NoLinesNoAtoms(s: State, marks: seq<Mark>)
    ensures LinesAtoms([], marks) == [] && LinesAdded(s, [], marks) == s
  {
  }

  lemma DocAtoms(content: seq<Node>)
    ensures NodeAtoms(Node("doc", None, content, None, None)) == NodesAtoms(content)
  {
  }

  lemma NothingThere()
    ensures NodesAtoms([]) == []
  {
  }

  lemma ListAtoms(kind: string, items: seq<Node>)
    requires kind in {"orderedList", "bulletList"}
    ensures NodeAtoms(ListOf(kind, items)) == NodesAtoms(items)
  {
  }

  lemma HeadingAtoms(level: nat, content: seq<Node>)
    ensures NodeAtoms(HeadingOf(level, content)) == NodesAtoms(content)
  {
  }

  lemma ImageAtoms(src: string)
    ensures NodeAtoms(ImageOf(src)) == [Picture(src)]
  {
  }
}
