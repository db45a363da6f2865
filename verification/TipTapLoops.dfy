/** The printer and parser as they run: vectors filled by loops with running offsets. Each loop
    computes the function of module TipTap it is named after. */
module TipTapLoops {
  import opened Basics
  import opened TipTap

  // ---- Printing ----

  method MarksForRangeLoop(start: nat, end: nat, marks: seq<EditorMark>) returns (out: seq<Mark>)
    ensures out == MarksForRange(start, end, marks)
  {
    out := [];
    assert marks[0..] == marks;
    for i := 0 to |marks|
      invariant out + MarksForRange(start, end, marks[i..]) == MarksForRange(start, end, marks)
    {
      hide PrintStyle;
      assert marks[i..][1..] == marks[i + 1..];
      if Overlaps(marks[i], start, end) {
        out := out + [PrintStyle(StyleOf(marks[i]))];
      }
    }
    assert out + [] == out;
  }

  predicate Increasing(xs: seq<nat>) {
    forall i, j :: 0 <= i < j < |xs| ==> xs[i] < xs[j]
  }

  function Insert(x: nat, xs: seq<nat>): (r: seq<nat>)
    requires Increasing(xs)
    ensures Increasing(r) && r != []
    ensures forall y :: y in r <==> y == x || y in xs
  {
    if xs == [] || x < xs[0] then [x] + xs
    else if x == xs[0] then xs
    else
      var rest := Insert(x, xs[1..]);
      assert forall y :: y in xs <==> y == xs[0] || y in xs[1..];
      assert forall y :: y in xs[1..] ==> xs[0] < y;
      assert forall i :: 0 <= i < |rest| ==> rest[i] in rest;
      [xs[0]] + rest
  }

  /** `sort_unstable` followed by `dedup`. */
  function SortedDistinct(xs: seq<nat>): (r: seq<nat>)
    ensures Increasing(r)
    ensures forall y :: y in r <==> y in xs
  {
    if xs == [] then [] else Insert(xs[0], SortedDistinct(xs[1..]))
  }

  /** Cuts of a segment, relative to its start: both ends and every mark boundary clipped into it. */
  predicate AreBounds(bounds: seq<nat>, marks: seq<EditorMark>, base: nat, len: nat) {
    && 0 in bounds && len in bounds
    && forall q :: 0 < q < len ==> (q in bounds <==> IsCut(marks, base, base + len, base + q))
  }

  method BoundsOf(len: nat, base: nat, marks: seq<EditorMark>) returns (bounds: seq<nat>)
    ensures AreBounds(bounds, marks, base, len)
    ensures forall q :: q in bounds ==> q <= len
  {
    bounds := [0, len];
    for i := 0 to |marks|
      invariant AreBounds(bounds, marks[..i], base, len)
      invariant forall q :: q in bounds ==> q <= len
    {
      assert marks[..i + 1] == marks[..i] + [marks[i]];
      if marks[i].start < base + len && marks[i].end > base {
        bounds := bounds + [Max(marks[i].start - base, 0), Min(marks[i].end - base, len)];
      }
    }
    assert marks[..|marks|] == marks;
  }

  lemma {:induction false} NextCutIs(marks: seq<EditorMark>, s: nat, e: nat, q: nat, r: nat)
    requires q <= r <= e && (r == e || IsCut(marks, s, e, r)) && forall k :: q <= k < r ==> !IsCut(marks, s, e, k)
    ensures NextCut(marks, s, e, q) == r
    decreases r - q
  {
    hide IsCut;
    if q < r {
      NextCutIs(marks, s, e, q + 1, r);
    }
  }

  /** Neighbouring cuts are one NextCut apart. */
  lemma WindowIsRun(cuts: seq<nat>, marks: seq<EditorMark>, base: nat, len: nat, i: nat)
    requires Increasing(cuts) && AreBounds(cuts, marks, base, len) && forall q :: q in cuts ==> q <= len
    requires i + 1 < |cuts|
    ensures cuts[i] < cuts[i + 1] <= len
    ensures NextCut(marks, base, base + len, base + cuts[i] + 1) == base + cuts[i + 1]
  {
    hide IsCut;
    var e := base + len;
    assert cuts[i + 1] in cuts;
    forall k | base + cuts[i] + 1 <= k < base + cuts[i + 1]
      ensures !IsCut(marks, base, e, k)
    {
      var q := k - base;
      if IsCut(marks, base, e, base + q) {
        assert q in cuts;
        var j :| 0 <= j < |cuts| && cuts[j] == q;
      }
    }
    NextCutIs(marks, base, e, base + cuts[i] + 1, base + cuts[i + 1]);
  }

  /** Sorting and deduplicating keeps the cuts and puts the ends at the ends. */
  lemma SortedBounds(bounds: seq<nat>, marks: seq<EditorMark>, base: nat, len: nat)
    requires AreBounds(bounds, marks, base, len) && forall q :: q in bounds ==> q <= len
    ensures var cuts := SortedDistinct(bounds);
            && AreBounds(cuts, marks, base, len) && (forall q :: q in cuts ==> q <= len)
            && cuts != [] && cuts[0] == 0 && cuts[|cuts| - 1] == len
  {
    hide IsCut, SortedDistinct;
    var cuts := SortedDistinct(bounds);
    var i :| 0 <= i < |cuts| && cuts[i] == 0;
    var j :| 0 <= j < |cuts| && cuts[j] == len;
    assert cuts[|cuts| - 1] in cuts;
  }

  lemma SliceOfSlice(s: string, i: nat, j: nat, a: nat, b: nat)
    requires i <= j <= |s| && a <= b <= j - i
    ensures s[i..j][a..b] == s[i + a..i + b]
  {
    assert forall k :: 0 <= k < b - a ==> s[i..j][a..b][k] == s[i + a..i + b][k];
  }

  lemma RunNodesStep(text: string, marks: seq<EditorMark>, s: nat, a: nat, q: nat, e: nat)
    requires a < q <= e <= |text| && NextCut(marks, s, e, a + 1) == q
    ensures RunNodes(text, marks, s, a, e)
         == [TextNode(text[a..q], MarksForRange(a, q, marks))] + RunNodes(text, marks, s, q, e)
  {
    hide IsCut, MarksForRange;
  }

  /** Nodes of one segment: sort the bounds, drop duplicates, and take the windows of two. */
  method TextNodesForRange(text: string, base: nat, marks: seq<EditorMark>, ghost full: string)
    returns (nodes: seq<Node>)
    requires base + |text| <= |full| && full[base..base + |text|] == text
    ensures nodes == RunNodes(full, marks, base, base, base + |text|)
  {
    hide IsCut, MarksForRange, SortedDistinct, AreBounds, RunNodes;
    var bounds := BoundsOf(|text|, base, marks);
    var cuts := SortedDistinct(bounds);
    SortedBounds(bounds, marks, base, |text|);
    ghost var e := base + |text|;
    NoRuns(full, marks, base, e);
    nodes := [];
    var i := 0;
    while i + 1 < |cuts|
      invariant 0 <= i < |cuts|
      invariant nodes + RunNodes(full, marks, base, base + cuts[i], e) == RunNodes(full, marks, base, base, e)
    {
      WindowIsRun(cuts, marks, base, |text|, i);
      var start, end := cuts[i], cuts[i + 1];
      var marked := MarksForRangeLoop(base + start, base + end, marks);
      SliceOfSlice(full, base, base + |text|, start, end);
      RunNodesStep(full, marks, base, base + start, base + end, e);
      nodes := nodes + [TextNode(text[start..end], marked)];
      i := i + 1;
    }
    assert nodes + [] == nodes;
  }

  /** The first segment from s on ends at the next line break, and the others start after it. */
  lemma {:induction false} SegmentsFrom(text: string, s: nat)
    requires s <= |text|
    ensures var e := SegmentEnd(text, s);
            && Segments(text[s..])[0] == text[s..e]
            && Segments(text[s..])[1..] == (if e < |text| then Segments(text[e + 1..]) else [])
    decreases |text| - s
  {
    if s < |text| {
      assert text[s..][1..] == text[s + 1..];
      if text[s] != '\n' {
        SegmentsFrom(text, s + 1);
        assert text[s..SegmentEnd(text, s)] == [text[s]] + text[s + 1..SegmentEnd(text, s)];
      }
    }
  }

  lemma SegmentStep(text: string, marks: seq<EditorMark>, s: nat)
    requires s <= |text|
    ensures var e := SegmentEnd(text, s);
            && Segments(text[s..])[0] == text[s..e]
            && Segments(text[s..])[1..] == (if e < |text| then Segments(text[e + 1..]) else [])
            && InlineFrom(text, marks, s) == RunNodes(text, marks, s, s, e) +
               if e < |text| then [HardBreak()] + InlineFrom(text, marks, e + 1) else []
  {
    hide RunNodes, Segments;
    SegmentsFrom(text, s);
  }

  /** The nodes of the first i segments are out, and the next segment starts at offset. */
  ghost predicate InlineSoFar(text: string, marks: seq<EditorMark>, segments: seq<string>, i: nat, offset: nat,
                              nodes: seq<Node>)
  {
    && i <= |segments| && offset <= |text|
    && (i < |segments| ==> segments[i..] == Segments(text[offset..]))
    && nodes + (if i < |segments| then InlineFrom(text, marks, offset) else []) == InlineJson(text, marks)
  }

  lemma InlineSoFarStart(text: string, marks: seq<EditorMark>)
    ensures InlineSoFar(text, marks, Segments(text), 0, 0, [])
  {
    hide InlineFrom, Segments;
    var segments := Segments(text);
    assert segments[0..] == segments && text[0..] == text;
  }

  lemma InlineSoFarStep(text: string, marks: seq<EditorMark>, segments: seq<string>, i: nat, offset: nat,
                        nodes: seq<Node>)
    requires InlineSoFar(text, marks, segments, i, offset, nodes) && i < |segments|
    ensures var end := offset + |segments[i]|;
            && end <= |text| && text[offset..end] == segments[i]
            && var grown := nodes + RunNodes(text, marks, offset, offset, end);
               if end < |text| then InlineSoFar(text, marks, segments, i + 1, end + 1, grown + [HardBreak()])
               else InlineSoFar(text, marks, segments, i + 1, end, grown)
  {
    hide RunNodes, InlineFrom, Segments, HardBreak;
    SegmentStep(text, marks, offset);
    TailOfDrop(segments, i);
    var end := SegmentEnd(text, offset);
    var runs := RunNodes(text, marks, offset, offset, end);
    if end < |text| {
      var rest := InlineFrom(text, marks, end + 1);
      Associative(nodes, runs, [HardBreak()] + rest);
      Associative(nodes + runs, [HardBreak()], rest);
    } else {
      Associative(nodes, runs, []);
    }
  }

  lemma InlineSoFarEnd(text: string, marks: seq<EditorMark>, segments: seq<string>, offset: nat, nodes: seq<Node>)
    requires InlineSoFar(text, marks, segments, |segments|, offset, nodes)
    ensures nodes == InlineJson(text, marks)
  {
    NothingAdded(nodes);
  }

  method InlineJsonLoop(text: string, marks: seq<EditorMark>) returns (nodes: seq<Node>)
    ensures nodes == InlineJson(text, marks)
  {
    hide *;
    if text == "" {
      EmptyInline(marks);
      return [];
    }
    nodes := [];
    var offset: nat := 0;
    var segments := Segments(text);
    InlineSoFarStart(text, marks);
    for i := 0 to |segments|
      invariant InlineSoFar(text, marks, segments, i, offset, nodes)
    {
      InlineSoFarStep(text, marks, segments, i, offset, nodes);
      var segment := segments[i];
      if segment != "" {
        var runs := TextNodesForRange(segment, offset, marks, text);
        nodes := nodes + runs;
      } else {
        NoRuns(text, marks, offset, offset);
        NothingAdded(nodes);
      }
      offset := offset + |segment|;
      if offset < |text| {
        nodes := nodes + [HardBreak()];
        offset := offset + 1;
      }
    }
    InlineSoFarEnd(text, marks, segments, offset, nodes);
  }

  lemma EmptyInline(marks: seq<EditorMark>)
    ensures InlineJson("", marks) == []
  {
  }

  method CollectLines(lines: seq<EditorLine>, start: nat, group: Group) returns (items: seq<EditorLine>, next: nat)
    requires start < |lines| && GroupOf(lines[start].block) == group
    ensures next == GroupEnd(lines, start + 1, group) && items == lines[start..next]
  {
    items := [];
    next := start;
    while next < |lines| && GroupOf(lines[next].block) == group
      invariant start <= next <= |lines| && items == lines[start..next]
      invariant GroupEnd(lines, next, group) == GroupEnd(lines, start, group)
    {
      items := items + [lines[next]];
      next := next + 1;
    }
  }

  method LinesToTipTapJson(lines: seq<EditorLine>) returns (doc: Node)
    ensures doc == PrintDoc(lines)
  {
    hide *;
    if lines == [] {
      PrintedFrom(lines);
      return Node("doc", None, [Bare("paragraph")], None, None);
    }
    var content: seq<Node> := [];
    var i := 0;
    assert content + PrintFrom(lines, 0) == PrintFrom(lines, 0);
    while i < |lines|
      invariant 0 <= i <= |lines|
      invariant content + PrintFrom(lines, i) == PrintFrom(lines, 0)
    {
      PrintStep(lines, i, content);
      var group := GroupOf(lines[i].block);
      if group == Single {
        content := content + [LineToBlockJson(lines[i])];
        i := i + 1;
      } else {
        var items, next := CollectLines(lines, i, group);
        content := content + [GroupJson(group, items)];
        i := next;
      }
    }
    NothingAdded(content);
    PrintedFrom(lines);
    doc := Node("doc", None, content, None, None);
  }

  lemma PrintedFrom(lines: seq<EditorLine>)
    ensures PrintFrom(lines, |lines|) == []
    ensures PrintDoc(lines)
         == Node("doc", None, if lines == [] then [Bare("paragraph")] else PrintFrom(lines, 0), None, None)
  {
  }

  lemma PrintStep(lines: seq<EditorLine>, i: nat, done: seq<Node>)
    requires i < |lines|
    ensures var group := GroupOf(lines[i].block);
            if group == Single
            then done + PrintFrom(lines, i) == done + [LineToBlockJson(lines[i])] + PrintFrom(lines, i + 1)
            else
              var j := GroupEnd(lines, i + 1, group);
              i < j && done + PrintFrom(lines, i) == done + [GroupJson(group, lines[i..j])] + PrintFrom(lines, j)
  {
    hide LineToBlockJson, GroupJson, GroupOf;
  }

  // ---- Parsing ----

  method InlineToText(content: seq<Node>) returns (out: string)
    ensures out == InlineText(content)
  {
    hide InlineText;
    out := "";
    assert content[0..] == content;
    for i := 0 to |content|
      invariant out + InlineText(content[i..]) == InlineText(content)
    {
      InlineTextStep(content, i, out);
      if content[i].kind == "text" {
        out := out + content[i].text.GetOr("");
      } else if content[i].kind == "hardBreak" {
        out := out + "\n";
      } else {
        NothingAdded(out);
      }
    }
    assert content[|content|..] == [] && InlineText([]) == "" by { NoInlineText(); }
    NothingAdded(out);
  }

  lemma InlineTextStep(content: seq<Node>, i: nat, done: string)
    requires i < |content|
    ensures done + InlineText(content[i..]) == done + NodeText(content[i]) + InlineText(content[i + 1..])
  {
    TailOfDrop(content, i);
    Associative(done, NodeText(content[i]), InlineText(content[i + 1..]));
  }

  lemma InlineMarksStep(content: seq<Node>, i: nat, offset: nat)
    requires i < |content|
    ensures InlineMarks(content[i..], offset)
         == NodeMarks(content[i], offset) + InlineMarks(content[i + 1..], offset + |NodeText(content[i])|)
  {
    hide NodeMarks, NodeText;
    TailOfDrop(content, i);
  }

  method InlineToMarks(content: seq<Node>) returns (marks: seq<EditorMark>)
    ensures marks == InlineMarks(content, 0)
  {
    hide InlineMarks, MarksOver;
    marks := [];
    var offset: nat := 0;
    assert content[0..] == content;
    for i := 0 to |content|
      invariant marks + InlineMarks(content[i..], offset) == InlineMarks(content, 0)
    {
      InlineMarksStep(content, i, offset);
      var node := content[i];
      if node.kind == "text" {
        var text := node.text.GetOr("");
        var over := NodeMarksLoop(node.marks.GetOr([]), offset, offset + |text|);
        marks := marks + over;
        offset := offset + |text|;
      } else if node.kind == "hardBreak" {
        offset := offset + 1;
      }
    }
    assert content[|content|..] == [] && InlineMarks([], offset) == [] by { NoInlineMarks(offset); }
    assert marks + [] == marks;
  }

  method NodeMarksLoop(nodeMarks: seq<Mark>, start: nat, end: nat) returns (marks: seq<EditorMark>)
    ensures marks == MarksOver(nodeMarks, start, end)
  {
    hide KindOfMark, HrefOf;
    marks := [];
    assert nodeMarks[0..] == nodeMarks;
    for i := 0 to |nodeMarks|
      invariant marks + MarksOver(nodeMarks[i..], start, end) == MarksOver(nodeMarks, start, end)
    {
      assert nodeMarks[i..][1..] == nodeMarks[i + 1..];
      var kind := KindOfMark(nodeMarks[i].kind);
      if kind.Some? {
        marks := marks + [EditorMark(start, end, kind.value, HrefOf(nodeMarks[i]))];
      }
    }
    assert marks + [] == marks;
  }

  ghost predicate MixedSoFar(children: seq<Node>, i: nat, block: BlockKind, start: Option<nat>, lines: seq<EditorLine>)
  {
    i <= |children| && lines + MixedFrom(children, i, block, start) == MixedFrom(children, 0, block, start)
  }

  lemma MixedSoFarStart(children: seq<Node>, block: BlockKind, start: Option<nat>)
    ensures MixedSoFar(children, 0, block, start, [])
  {
  }

  lemma MixedSoFarImage(children: seq<Node>, i: nat, block: BlockKind, start: Option<nat>, lines: seq<EditorLine>)
    requires MixedSoFar(children, i, block, start, lines) && i < |children| && IsImage(children[i])
    ensures MixedSoFar(children, i + 1, block, start, lines + ImageLines(children[i].attrs))
  {
    hide ImageLines, InlineText, InlineMarks, IsImage;
    Associative(lines, ImageLines(children[i].attrs), MixedFrom(children, i + 1, block, start));
  }

  lemma {:induction false} ChunkEndIs(children: seq<Node>, i: nat, j: nat)
    requires i <= j <= |children|
    requires (forall k :: i <= k < j ==> !IsImage(children[k])) && (j < |children| ==> IsImage(children[j]))
    ensures ChunkEnd(children, i) == j
    decreases j - i
  {
    hide IsImage;
    if i < j {
      ChunkEndIs(children, i + 1, j);
    }
  }

  lemma MixedSoFarText(children: seq<Node>, i: nat, j: nat, block: BlockKind, start: Option<nat>,
                       lines: seq<EditorLine>)
    requires MixedSoFar(children, i, block, start, lines) && i < j <= |children|
    requires (forall k :: i <= k < j ==> !IsImage(children[k])) && (j < |children| ==> IsImage(children[j]))
    ensures MixedSoFar(children, j, block, start, lines + [TextLine(block, children[i..j], start)])
  {
    hide TextLine, InlineText, InlineMarks, IsImage;
    ChunkEndIs(children, i, j);
    assert !IsImage(children[i]);
    Associative(lines, [TextLine(block, children[i..j], start)], MixedFrom(children, j, block, start));
  }

  lemma MixedSoFarEnd(children: seq<Node>, block: BlockKind, start: Option<nat>, lines: seq<EditorLine>)
    requires MixedSoFar(children, |children|, block, start, lines) && children != []
    ensures lines == Mixed(children, block, start)
  {
    NothingAdded(lines);
  }

  lemma NothingMixed(block: BlockKind, start: Option<nat>)
    ensures Mixed([], block, start) == [EditorLine(block, "", [], None, start)]
  {
  }

  lemma MadeOfText(block: BlockKind, chunk: seq<Node>, start: Option<nat>)
    ensures TextLine(block, chunk, start) == EditorLine(block, InlineText(chunk), InlineMarks(chunk, 0), None, start)
  {
  }

  method FlattenMixedInlines(children: seq<Node>, block: BlockKind, start: Option<nat>)
    returns (lines: seq<EditorLine>)
    ensures lines == Mixed(children, block, start)
  {
    hide *;
    if children == [] {
      NothingMixed(block, start);
      return [EditorLine(block, "", [], None, start)];
    }
    lines := [];
    var i := 0;
    MixedSoFarStart(children, block, start);
    while i < |children|
      invariant 0 <= i <= |children| && MixedSoFar(children, i, block, start, lines)
    {
      if IsImage(children[i]) {
        MixedSoFarImage(children, i, block, start, lines);
        lines := lines + ImageLines(children[i].attrs);
        i := i + 1;
      } else {
        var from := i;
        while i < |children| && !IsImage(children[i])
          invariant from <= i <= |children|
          invariant forall k :: from <= k < i ==> !IsImage(children[k])
        {
          i := i + 1;
        }
        MixedSoFarText(children, from, i, block, start, lines);
        var chunk := children[from..i];
        var text := InlineToText(chunk);
        var marks := InlineToMarks(chunk);
        MadeOfText(block, chunk, start);
        lines := lines + [EditorLine(block, text, marks, None, start)];
      }
    }
    MixedSoFarEnd(children, block, start, lines);
  }

  method FlattenBlock(node: Node) returns (lines: seq<EditorLine>)
    ensures lines == Block(node)
    decreases node, 2
  {
    hide Mixed, InlineText, InlineMarks, ImageLines, Items, Tasks;
    if node.kind == "paragraph" {
      lines := FlattenMixedInlines(node.content, Paragraph, None);
    } else if node.kind == "heading" {
      var text := InlineToText(node.content);
      var marks := InlineToMarks(node.content);
      lines := [EditorLine(Heading(HeadingLevel(node.attrs)), text, marks, None, None)];
    } else if node.kind == "blockquote" {
      lines := [];
      assert node.content[0..] == node.content;
      for i := 0 to |node.content|
        invariant lines + Quoted(node.content[i..]) == Quoted(node.content)
      {
        assert node.content[i..][1..] == node.content[i + 1..];
        var child := node.content[i];
        var more: seq<EditorLine>;
        if child.kind == "paragraph" {
          more := FlattenMixedInlines(child.content, Blockquote, None);
        } else {
          more := FlattenBlock(child);
        }
        lines := lines + more;
      }
      assert lines + [] == lines;
    } else if node.kind == "codeBlock" {
      var text := InlineToText(node.content);
      lines := [EditorLine(CodeBlock, text, [], None, None)];
    } else if node.kind == "bulletList" {
      lines := FlattenList(node, BulletItem);
    } else if node.kind == "orderedList" {
      lines := FlattenList(node, OrderedItem);
    } else if node.kind == "taskList" {
      lines := FlattenTaskList(node);
    } else if IsImage(node) {
      lines := ImageLines(node.attrs);
    } else {
      lines := [];
      assert node.content[0..] == node.content;
      for i := 0 to |node.content|
        invariant lines + Blocks(node.content[i..]) == Blocks(node.content)
      {
        assert node.content[i..][1..] == node.content[i + 1..];
        var more := FlattenBlock(node.content[i]);
        lines := lines + more;
      }
      assert lines + [] == lines;
    }
  }

  method LinesFromDocLoop(doc: Node) returns (lines: seq<EditorLine>)
    ensures lines == LinesFromDoc(doc)
  {
    hide Block;
    lines := [];
    assert doc.content[0..] == doc.content;
    for i := 0 to |doc.content|
      invariant lines + Blocks(doc.content[i..]) == Blocks(doc.content)
    {
      assert doc.content[i..][1..] == doc.content[i + 1..];
      var more := FlattenBlock(doc.content[i]);
      lines := lines + more;
    }
    assert lines + [] == lines;
  }

  method FlattenList(node: Node, kind: BlockKind) returns (lines: seq<EditorLine>)
    ensures lines == Items(node.content, kind, ListStart(node, kind))
    decreases node, 1
  {
    hide Mixed, Block;
    var orderedStart := ListStart(node, kind);
    var firstItem := true;
    lines := [];
    assert node.content[0..] == node.content;
    for i := 0 to |node.content|
      invariant lines + Items(node.content[i..], kind, if firstItem then orderedStart else None)
             == Items(node.content, kind, orderedStart)
    {
      assert node.content[i..][1..] == node.content[i + 1..];
      var child := node.content[i];
      if child.kind == "listItem" {
        ghost var start := if firstItem then orderedStart else None;
        ghost var before := lines;
        assert child.content[0..] == child.content;
        for k := 0 to |child.content|
          invariant var rest := ItemBlocks(child.content[k..], kind, if firstItem then orderedStart else None);
                    var all := ItemBlocks(child.content, kind, start);
                    lines + rest.0 == before + all.0 && rest.1 == all.1
        {
          assert child.content[k..][1..] == child.content[k + 1..];
          var block := child.content[k];
          var more: seq<EditorLine>;
          if block.kind == "paragraph" {
            var number := if firstItem then orderedStart else None;
            more := FlattenMixedInlines(block.content, kind, number);
            firstItem := false;
          } else {
            more := FlattenBlock(block);
          }
          lines := lines + more;
        }
        assert lines == before + ItemBlocks(child.content, kind, start).0;
      }
    }
    assert lines + [] == lines;
  }

  lemma TasksStep(items: seq<Node>, i: nat, done: seq<EditorLine>)
    requires i < |items|
    ensures done + Tasks(items[i..]) == done + TasksOf(items[i]) + Tasks(items[i + 1..])
  {
    hide TaskBlocks;
    TailOfDrop(items, i);
    Associative(done, TasksOf(items[i]), Tasks(items[i + 1..]));
  }

  function TasksOf(item: Node): seq<EditorLine> {
    if item.kind == "taskItem" then TaskBlocks(item.content, Attr(item.attrs, "checked") == Bool(true)) else []
  }

  lemma TaskBlocksStep(blocks: seq<Node>, i: nat, checked: bool, done: seq<EditorLine>)
    requires i < |blocks|
    ensures var own := if blocks[i].kind == "paragraph" then Mixed(blocks[i].content, TaskItem(checked), None) else [];
            done + TaskBlocks(blocks[i..], checked) == done + own + TaskBlocks(blocks[i + 1..], checked)
  {
    hide Mixed;
    TailOfDrop(blocks, i);
    var own := if blocks[i].kind == "paragraph" then Mixed(blocks[i].content, TaskItem(checked), None) else [];
    Associative(done, own, TaskBlocks(blocks[i + 1..], checked));
  }

  lemma NoTasks(checked: bool)
    ensures Tasks([]) == [] && TaskBlocks([], checked) == []
  {
  }

  /** Lines of one task item: its paragraphs. */
  method FlattenTaskItem(blocks: seq<Node>, checked: bool) returns (lines: seq<EditorLine>)
    ensures lines == TaskBlocks(blocks, checked)
  {
    hide *;
    lines := [];
    assert blocks[0..] == blocks;
    for k := 0 to |blocks|
      invariant lines + TaskBlocks(blocks[k..], checked) == TaskBlocks(blocks, checked)
    {
      TaskBlocksStep(blocks, k, checked, lines);
      if blocks[k].kind == "paragraph" {
        var more := FlattenMixedInlines(blocks[k].content, TaskItem(checked), None);
        lines := lines + more;
      } else {
        NothingAdded(lines);
      }
    }
    assert blocks[|blocks|..] == [] && TaskBlocks([], checked) == [] by { NoTasks(checked); }
    NothingAdded(lines);
  }

  method FlattenTaskList(node: Node) returns (lines: seq<EditorLine>)
    ensures lines == Tasks(node.content)
  {
    hide Tasks, TaskBlocks, Mixed, Attr;
    lines := [];
    assert node.content[0..] == node.content;
    for i := 0 to |node.content|
      invariant lines + Tasks(node.content[i..]) == Tasks(node.content)
    {
      TasksStep(node.content, i, lines);
      var child := node.content[i];
      if child.kind == "taskItem" {
        var more := FlattenTaskItem(child.content, Attr(child.attrs, "checked") == Bool(true));
        lines := lines + more;
      } else {
        NothingAdded(lines);
      }
    }
    assert node.content[|node.content|..] == [] && Tasks([]) == [] by { NoTasks(false); }
    NothingAdded(lines);
  }

  // ---- Numbers shown beside ordered items ----

  function OrderedRunStart(lines: seq<EditorLine>, ix: nat): (r: nat)
    requires ix < |lines|
    ensures r <= ix
  {
    if ix > 0 && lines[ix - 1].block == OrderedItem then OrderedRunStart(lines, ix - 1) else ix
  }

  method OrderedRunStartIx(lines: seq<EditorLine>, ix: nat) returns (start: nat)
    requires ix < |lines|
    ensures start == OrderedRunStart(lines, ix)
  {
    start := ix;
    while start > 0 && lines[start - 1].block == OrderedItem
      invariant start <= ix && OrderedRunStart(lines, start) == OrderedRunStart(lines, ix)
    {
      start := start - 1;
    }
  }

  function OrderedLineNumber(lines: seq<EditorLine>, ix: nat): nat
    requires ix < |lines|
  {
    var runStart := OrderedRunStart(lines, ix);
    lines[runStart].orderedStart.GetOr(1) + (ix - runStart)
  }

  /** The number shown is the one the printed list gives: its start attribute plus the item's place. */
  lemma {:induction false} NumberShownIsNumberPrinted(lines: seq<EditorLine>, i: nat, j: nat, ix: nat)
    requires i <= ix < j <= |lines|
    requires forall k :: i <= k < j ==> lines[k].block == OrderedItem
    requires i == 0 || lines[i - 1].block != OrderedItem
    ensures OrderedRunStart(lines, ix) == i
    ensures GroupJson(Ordereds, lines[i..j]).attrs.value["start"] == Num(OrderedLineNumber(lines, ix) - (ix - i))
    ensures GroupJson(Ordereds, lines[i..j]).content[ix - i] == ListItemJson(lines[ix])
    decreases ix
  {
    hide ParagraphJson;
    if i < ix {
      NumberShownIsNumberPrinted(lines, i, j, ix - 1);
    }
  }
}
