/** The editor's line model and the TipTap document tree it is stored as. */
module TipTap {
  import opened Basics

  // ---- Lines ----

  datatype BlockKind =
    | Paragraph
    | Heading(level: Byte)
    | BulletItem
    | OrderedItem
    | TaskItem(checked: bool)
    | Blockquote
    | CodeBlock
    | Image

  datatype MarkKind = Bold | Italic | Strike | Code | Link

  /** A style over text[start..end]; href is the target of a link. */
  datatype EditorMark = EditorMark(start: nat, end: nat, kind: MarkKind, href: Option<string>)

  datatype EditorLine = EditorLine(
    block: BlockKind,
    text: string,
    marks: seq<EditorMark>,
    imageSrc: Option<string>,
    orderedStart: Option<nat>)

  const DEFAULT_LINE := EditorLine(Paragraph, "", [], None, None)

  predicate MarksInside(line: EditorLine) {
    forall m :: m in line.marks ==> m.start <= m.end <= |line.text|
  }

  // ---- Trees ----

  /** Attribute values; arrays, objects and non-natural numbers are all read as Other. */
  datatype Json = Null | Bool(b: bool) | Num(n: nat) | Str(s: string) | Other

  type Attrs = map<string, Json>

  datatype Mark = Mark(kind: string, attrs: Option<Attrs>)

  /** An absent content array is []: the printer never writes an empty one and the parser treats
      both alike. */
  datatype Node = Node(
    kind: string,
    attrs: Option<Attrs>,
    content: seq<Node>,
    text: Option<string>,
    marks: Option<seq<Mark>>)

  function Attr(attrs: Option<Attrs>, key: string): Json {
    if attrs.Some? && key in attrs.value then attrs.value[key] else Null
  }

  // ---- Trimming, as Rust's `str::trim` ----

  predicate IsWhitespace(c: char) {
    var n := c as int;
    || 9 <= n <= 13 || n == 0x20 || n == 0x85 || n == 0xa0 || n == 0x1680 || 0x2000 <= n <= 0x200a
    || n == 0x2028 || n == 0x2029 || n == 0x202f || n == 0x205f || n == 0x3000
  }

  function TrimStart(s: string): string {
    if s != [] && IsWhitespace(s[0]) then TrimStart(s[1..]) else s
  }

  function TrimEnd(s: string): string {
    if s != [] && IsWhitespace(s[|s| - 1]) then TrimEnd(s[..|s| - 1]) else s
  }

  function Trim(s: string): string {
    TrimEnd(TrimStart(s))
  }

  // ---- Reading a tree: what the parser pushes, as functions ----

  function SrcUnder(attrs: Option<Attrs>, key: string): Option<string> {
    match Attr(attrs, key)
    case Str(s) => if Trim(s) == "" then None else Some(Trim(s))
    case _ => None
  }

  function ImageSrc(attrs: Option<Attrs>): Option<string> {
    if SrcUnder(attrs, "src").Some? then SrcUnder(attrs, "src")
    else if SrcUnder(attrs, "url").Some? then SrcUnder(attrs, "url")
    else SrcUnder(attrs, "href")
  }

  function KindOfMark(kind: string): Option<MarkKind> {
    if kind == "bold" then Some(Bold)
    else if kind == "italic" then Some(Italic)
    else if kind == "strike" then Some(Strike)
    else if kind == "code" then Some(Code)
    else if kind == "link" then Some(Link)
    else None
  }

  function HrefOf(mark: Mark): Option<string> {
    match Attr(mark.attrs, "href")
    case Str(s) => Some(s)
    case _ => None
  }

  function NodeText(node: Node): string {
    if node.kind == "text" then node.text.GetOr("")
    else if node.kind == "hardBreak" then "\n"
    else ""
  }

  function InlineText(content: seq<Node>): string {
    if content == [] then "" else NodeText(content[0]) + InlineText(content[1..])
  }

  function MarksOver(marks: seq<Mark>, start: nat, end: nat): seq<EditorMark> {
    if marks == [] then []
    else
      (match KindOfMark(marks[0].kind)
       case None => []
       case Some(kind) => [EditorMark(start, end, kind, HrefOf(marks[0]))])
      + MarksOver(marks[1..], start, end)
  }

  function NodeMarks(node: Node, offset: nat): seq<EditorMark> {
    if node.kind == "text" then MarksOver(node.marks.GetOr([]), offset, offset + |NodeText(node)|) else []
  }

  /** Marks of inline content whose first character sits at offset. */
  function InlineMarks(content: seq<Node>, offset: nat): seq<EditorMark>
    decreases |content|
  {
    if content == [] then []
    else NodeMarks(content[0], offset) + InlineMarks(content[1..], offset + |NodeText(content[0])|)
  }

  lemma NoInlineText()
    ensures InlineText([]) == ""
  {
  }

  lemma NoInlineMarks(offset: nat)
    ensures InlineMarks([], offset) == []
  {
  }

  function ImageLine(src: string): EditorLine {
    EditorLine(Image, "", [], Some(src), None)
  }

  function ImageLines(attrs: Option<Attrs>): seq<EditorLine> {
    match ImageSrc(attrs)
    case None => []
    case Some(src) => [ImageLine(src)]
  }

  function TextLine(block: BlockKind, chunk: seq<Node>, start: Option<nat>): EditorLine {
    EditorLine(block, InlineText(chunk), InlineMarks(chunk, 0), None, start)
  }

  predicate IsImage(node: Node) {
    node.kind == "image"
  }

  /** First index from i on that holds an image. */
  function ChunkEnd(children: seq<Node>, i: nat): (j: nat)
    requires i <= |children|
    ensures i <= j <= |children|
    ensures forall k :: i <= k < j ==> !IsImage(children[k])
    ensures j < |children| ==> children[j].kind == "image"
    decreases |children| - i
  {
    if i < |children| && !IsImage(children[i]) then ChunkEnd(children, i + 1) else i
  }

  /** Inline content from i on: one line per image and one per stretch without images. */
  function MixedFrom(children: seq<Node>, i: nat, block: BlockKind, start: Option<nat>): seq<EditorLine>
    requires i <= |children|
    decreases |children| - i
  {
    if i == |children| then []
    else if IsImage(children[i]) then
      ImageLines(children[i].attrs) + MixedFrom(children, i + 1, block, start)
    else
      var j := ChunkEnd(children, i);
      [TextLine(block, children[i..j], start)] + MixedFrom(children, j, block, start)
  }

  function Mixed(children: seq<Node>, block: BlockKind, start: Option<nat>): seq<EditorLine> {
    if children == [] then [EditorLine(block, "", [], None, start)] else MixedFrom(children, 0, block, start)
  }

  function HeadingLevel(attrs: Option<Attrs>): Byte {
    match Attr(attrs, "level")
    case Num(n) => n % 256
    case _ => 1
  }

  function ListStart(node: Node, kind: BlockKind): Option<nat> {
    if kind == OrderedItem && Attr(node.attrs, "start").Num? then Some(Attr(node.attrs, "start").n) else None
  }

  function Block(node: Node): seq<EditorLine>
    decreases node, 2
  {
    if node.kind == "paragraph" then Mixed(node.content, Paragraph, None)
    else if node.kind == "heading" then
      [TextLine(Heading(HeadingLevel(node.attrs)), node.content, None)]
    else if node.kind == "blockquote" then Quoted(node.content)
    else if node.kind == "codeBlock" then [EditorLine(CodeBlock, InlineText(node.content), [], None, None)]
    else if node.kind == "bulletList" then Items(node.content, BulletItem, None)
    else if node.kind == "orderedList" then
      Items(node.content, OrderedItem, ListStart(node, OrderedItem))
    else if node.kind == "taskList" then Tasks(node.content)
    else if IsImage(node) then ImageLines(node.attrs)
    else Blocks(node.content)
  }

  function Blocks(nodes: seq<Node>): seq<EditorLine>
    decreases nodes, 1
  {
    if nodes == [] then [] else Block(nodes[0]) + Blocks(nodes[1..])
  }

  function Quoted(nodes: seq<Node>): seq<EditorLine>
    decreases nodes, 1
  {
    if nodes == [] then []
    else
      (if nodes[0].kind == "paragraph" then Mixed(nodes[0].content, Blockquote, None) else Block(nodes[0]))
      + Quoted(nodes[1..])
  }

  /** Blocks of one list item; start numbers the first paragraph met and is then spent. */
  function ItemBlocks(blocks: seq<Node>, kind: BlockKind, start: Option<nat>): (seq<EditorLine>, Option<nat>)
    decreases blocks, 1
  {
    if blocks == [] then ([], start)
    else if blocks[0].kind == "paragraph" then
      var rest := ItemBlocks(blocks[1..], kind, None);
      (Mixed(blocks[0].content, kind, start) + rest.0, rest.1)
    else
      var rest := ItemBlocks(blocks[1..], kind, start);
      (Block(blocks[0]) + rest.0, rest.1)
  }

  function Items(items: seq<Node>, kind: BlockKind, start: Option<nat>): seq<EditorLine>
    decreases items, 1
  {
    if items == [] then []
    else if items[0].kind == "listItem" then
      var item := ItemBlocks(items[0].content, kind, start);
      item.0 + Items(items[1..], kind, item.1)
    else Items(items[1..], kind, start)
  }

  function TaskBlocks(blocks: seq<Node>, checked: bool): seq<EditorLine> {
    if blocks == [] then []
    else
      (if blocks[0].kind == "paragraph" then Mixed(blocks[0].content, TaskItem(checked), None) else [])
      + TaskBlocks(blocks[1..], checked)
  }

  function Tasks(items: seq<Node>): seq<EditorLine> {
    if items == [] then []
    else
      (if items[0].kind == "taskItem" then
         TaskBlocks(items[0].content, Attr(items[0].attrs, "checked") == Bool(true))
       else [])
      + Tasks(items[1..])
  }

  /** Lines of a document; possibly none. */
  function LinesFromDoc(doc: Node): seq<EditorLine> {
    Blocks(doc.content)
  }

  // ---- Printing lines ----

  function Bare(kind: string): Node {
    Node(kind, None, [], None, None)
  }

  function HardBreak(): Node {
    Bare("hardBreak")
  }

  const LINK_DEFAULT := "https://"

  function MarkName(kind: MarkKind): string {
    match kind
    case Bold => "bold"
    case Italic => "italic"
    case Strike => "strike"
    case Code => "code"
    case Link => "link"
  }

  /** What a mark means at a position: its kind and, for a link, its effective target. */
  datatype Style = Style(kind: MarkKind, target: Option<string>)

  function StyleOf(m: EditorMark): Style {
    Style(m.kind, if m.kind == Link then Some(m.href.GetOr(LINK_DEFAULT)) else None)
  }

  function PrintStyle(style: Style): Mark {
    Mark(MarkName(style.kind),
         match style.target
         case None => None
         case Some(href) => Some(map["href" := Str(href), "target" := Str("_blank"),
                                     "rel" := Str("noopener noreferrer nofollow"),
                                     "class" := Null, "title" := Null]))
  }

  predicate Overlaps(m: EditorMark, start: nat, end: nat) {
    m.start < end && m.end > start
  }

  function MarksForRange(start: nat, end: nat, marks: seq<EditorMark>): seq<Mark> {
    if marks == [] then []
    else (if Overlaps(marks[0], start, end) then [PrintStyle(StyleOf(marks[0]))] else [])
         + MarksForRange(start, end, marks[1..])
  }

  function TextNode(text: string, marks: seq<Mark>): Node {
    Node("text", None, [], Some(text), if marks == [] then None else Some(marks))
  }

  /** q separates two runs of the segment [s, e): a mark that touches the segment starts or ends there. */
  predicate IsCut(marks: seq<EditorMark>, s: nat, e: nat, q: nat) {
    exists m :: m in marks && Overlaps(m, s, e) && (m.start == q || m.end == q)
  }

  function NextCut(marks: seq<EditorMark>, s: nat, e: nat, q: nat): (r: nat)
    requires q <= e
    ensures q <= r <= e && (r == e || IsCut(marks, s, e, r))
    ensures forall k :: q <= k < r ==> !IsCut(marks, s, e, k)
    decreases e - q
  {
    if q == e || IsCut(marks, s, e, q) then q else NextCut(marks, s, e, q + 1)
  }

  /** Text nodes of [a, e) in the segment [s, e): the longest runs no mark boundary cuts. */
  function RunNodes(text: string, marks: seq<EditorMark>, s: nat, a: nat, e: nat): seq<Node>
    requires a <= e <= |text|
    decreases e - a
  {
    if a == e then []
    else
      var q := NextCut(marks, s, e, a + 1);
      [TextNode(text[a..q], MarksForRange(a, q, marks))] + RunNodes(text, marks, s, q, e)
  }

  lemma NoRuns(text: string, marks: seq<EditorMark>, s: nat, e: nat)
    requires e <= |text|
    ensures RunNodes(text, marks, s, e, e) == []
  {
  }

  /** End of the stretch without line breaks that starts at i. */
  function SegmentEnd(text: string, i: nat): (j: nat)
    requires i <= |text|
    ensures i <= j <= |text|
    ensures forall k :: i <= k < j ==> text[k] != '\n'
    ensures j < |text| ==> text[j] == '\n'
    decreases |text| - i
  {
    if i < |text| && text[i] != '\n' then SegmentEnd(text, i + 1) else i
  }

  function InlineFrom(text: string, marks: seq<EditorMark>, s: nat): seq<Node>
    requires s <= |text|
    decreases |text| - s
  {
    var e := SegmentEnd(text, s);
    RunNodes(text, marks, s, s, e) +
    if e < |text| then [HardBreak()] + InlineFrom(text, marks, e + 1) else []
  }

  function InlineJson(text: string, marks: seq<EditorMark>): seq<Node> {
    InlineFrom(text, marks, 0)
  }

  function ParagraphJson(line: EditorLine): Node {
    Node("paragraph", None, InlineJson(line.text, line.marks), None, None)
  }

  function LineToBlockJson(line: EditorLine): Node {
    match line.block
    case Image =>
      Node("image", Some(map["src" := Str(line.imageSrc.GetOr("")), "alt" := Null, "title" := Null,
                             "width" := Null, "height" := Null]), [], None, None)
    case Heading(level) =>
      Node("heading", Some(map["level" := Num(level)]), InlineJson(line.text, line.marks), None, None)
    case CodeBlock =>
      Node("codeBlock", Some(map["language" := Null]),
           if line.text == "" then [] else [TextNode(line.text, [])], None, None)
    case _ => ParagraphJson(line)
  }

  function ListItemJson(line: EditorLine): Node {
    Node("listItem", None, [ParagraphJson(line)], None, None)
  }

  function TaskItemJson(line: EditorLine): Node {
    Node("taskItem", Some(map["checked" := Bool(line.block == TaskItem(true))]), [ParagraphJson(line)], None, None)
  }

  /** Blocks that are gathered into one container node. */
  datatype Group = Bullets | Ordereds | TasksGroup | Quotes | Single

  function GroupOf(block: BlockKind): Group {
    match block
    case BulletItem => Bullets
    case OrderedItem => Ordereds
    case TaskItem(_) => TasksGroup
    case Blockquote => Quotes
    case _ => Single
  }

  function GroupEnd(lines: seq<EditorLine>, i: nat, group: Group): (j: nat)
    requires i <= |lines|
    ensures i <= j <= |lines|
    ensures forall k :: i <= k < j ==> GroupOf(lines[k].block) == group
    ensures j < |lines| ==> GroupOf(lines[j].block) != group
    decreases |lines| - i
  {
    if i < |lines| && GroupOf(lines[i].block) == group then GroupEnd(lines, i + 1, group) else i
  }

  function MapLines(f: EditorLine -> Node, lines: seq<EditorLine>): (r: seq<Node>)
    ensures |r| == |lines| && forall i :: 0 <= i < |r| ==> r[i] == f(lines[i])
  {
    seq(|lines|, i requires 0 <= i < |lines| => f(lines[i]))
  }

  function ItemJson(group: Group): EditorLine -> Node {
    match group
    case TasksGroup => TaskItemJson
    case Quotes => LineToBlockJson
    case _ => ListItemJson
  }

  function GroupAttrs(group: Group, first: EditorLine): Option<Attrs> {
    if group == Ordereds then Some(map["start" := Num(first.orderedStart.GetOr(1)), "type" := Null]) else None
  }

  function GroupKind(group: Group): string {
    match group
    case Bullets => "bulletList"
    case Ordereds => "orderedList"
    case TasksGroup => "taskList"
    case _ => "blockquote"
  }

  function GroupJson(group: Group, members: seq<EditorLine>): Node
    requires members != []
  {
    Node(GroupKind(group), GroupAttrs(group, members[0]), MapLines(ItemJson(group), members), None, None)
  }

  function PrintFrom(lines: seq<EditorLine>, i: nat): seq<Node>
    requires i <= |lines|
    decreases |lines| - i
  {
    if i == |lines| then []
    else
      var group := GroupOf(lines[i].block);
      if group == Single then [LineToBlockJson(lines[i])] + PrintFrom(lines, i + 1)
      else
        var j := GroupEnd(lines, i + 1, group);
        [GroupJson(group, lines[i..j])] + PrintFrom(lines, j)
  }

  function PrintDoc(lines: seq<EditorLine>): Node {
    Node("doc", None, if lines == [] then [Bare("paragraph")] else PrintFrom(lines, 0), None, None)
  }
}
