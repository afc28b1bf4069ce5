/** The Markdown reader of the block editor: lines in, rows out. */
module MarkdownParser {
  import opened Wrappers
  import opened Text
  import opened Json
  import opened MarkdownLines
  import opened MarkdownBlocks
  import opened LineBreaks

  // ---------- the rows the reader pushes ----------

  function OptionalEntry(key: string, s: Option<string>): seq<Entry> {
    match s
    case None => []
    case Some(text) => [Entry(key, Str(text))]
  }

  function TypeEntry(blockType: string): Entry {
    Entry("blockType", Str(blockType))
  }

  function ItemRow(text: string): Value {
    Obj([Entry("text", Str(text))])
  }

  function ItemRows(items: seq<string>): (rows: seq<Value>)
    ensures |rows| == |items| && forall i :: 0 <= i < |items| ==> rows[i] == ItemRow(items[i])
  {
    if items == [] then [] else [ItemRow(items[0])] + ItemRows(items[1..])
  }

  function StyleText(ordered: bool): string {
    if ordered then "ordered" else "unordered"
  }

  function BlockEntries(b: Block): seq<Entry> {
    match b
    case Paragraph(text) => [TypeEntry("paragraph"), Entry("text", Str(text))]
    case HeadingBlock(level, text) =>
      [TypeEntry("heading"), Entry("level", Str(NatText(level))), Entry("text", Str(text))]
    case QuoteBlock(text, attribution, citeUrl) =>
      OptionalEntry("attribution", attribution) + [TypeEntry("quote")] +
      OptionalEntry("citeUrl", citeUrl) + [Entry("text", Str(text))]
    case ListBlock(ordered, items) =>
      [TypeEntry("list"), Entry("items", Arr(ItemRows(items))), Entry("style", Str(StyleText(ordered)))]
    case CodeBlock(language, code, caption) =>
      [TypeEntry("code"), Entry("code", Str(code)), Entry("language", Str(language))] +
      OptionalEntry("caption", caption)
    case ImageBlock(src, alt, caption) =>
      [Entry("alt", Str(alt)), TypeEntry("image"), Entry("src", Str(src))] +
      OptionalEntry("caption", caption)
  }

  function BlockRow(b: Block): Value {
    Obj(BlockEntries(b))
  }

  // ---------- one segment at a time ----------

  /** What the reader takes from the front of its lines: at most one row, and how many lines. */
  datatype Segment = Segment(row: Option<Value>, taken: nat)

  /** Index of the first line from `from` on that satisfies `p`. */
  function FirstFrom(lines: seq<string>, from: nat, p: string -> bool): (k: nat)
    requires from <= |lines|
    ensures from <= k <= |lines|
    ensures forall i :: from <= i < k ==> !p(lines[i])
    ensures k < |lines| ==> p(lines[k])
    decreases |lines| - from
  {
    if from == |lines| || p(lines[from]) then from else FirstFrom(lines, from + 1, p)
  }

  function NotBlankParagraph(lines: seq<string>): Value {
    BlockRow(Paragraph(Join(lines, '\n')))
  }

  function ProtectedSegment(lines: seq<string>): (s: Segment)
    requires lines != []
    ensures 1 <= s.taken <= |lines| && s.row.Some?
  {
    var k := FirstFrom(lines, 1, IsProtectedClosing);
    if k == |lines| then Segment(Some(NotBlankParagraph(lines)), |lines|)
    else
      match Parse(Join(lines[1..k], '\n'))
      case Some(Obj(row)) => Segment(Some(Obj(row)), k + 1)
      case _ => Segment(Some(NotBlankParagraph(lines[..k + 1])), k + 1)
  }

  function FencedSegment(lines: seq<string>): (s: Segment)
    requires lines != []
    ensures 1 <= s.taken <= |lines| && s.row.Some?
  {
    match FenceOpening(lines[0])
    case None => Segment(Some(NotBlankParagraph(lines)), |lines|)
    case Some(fence) =>
      var k := FirstFrom(lines, 1, line => IsFenceClosing(line, fence.ticks));
      if k == |lines| then Segment(Some(NotBlankParagraph(lines)), |lines|)
      else
        var caption := if k + 1 < |lines| then CodeCaption(lines[k + 1]) else None;
        var block := CodeBlock(fence.language, Join(lines[1..k], '\n'), caption);
        Segment(Some(BlockRow(block)), if caption.None? then k + 1 else k + 2)
  }

  /** The leading lines of a quote, without their markers. */
  function QuoteLines(lines: seq<string>): (quoted: seq<string>)
    ensures |quoted| <= |lines|
    ensures lines != [] && QuoteLine(lines[0]).Some? ==> quoted != []
  {
    if lines == [] then []
    else
      match QuoteLine(lines[0])
      case None => []
      case Some(text) => [text] + QuoteLines(lines[1..])
  }

  function QuoteOf(quoted: seq<string>): Block {
    if quoted == [] || !StartsWith(quoted[|quoted| - 1], DASH) then QuoteBlock(Join(quoted, '\n'), None, None)
    else
      var metadata := quoted[|quoted| - 1][2..];
      var text := Join(quoted[..|quoted| - 1], '\n');
      match BareCitation(metadata)
      case Some(url) => QuoteBlock(text, None, Some(url))
      case None =>
        match NamedCitation(metadata)
        case Some(Citation(name, url)) => QuoteBlock(text, Some(name), Some(url))
        case None => QuoteBlock(text, Some(metadata), None)
  }

  /** The leading list items of one style. */
  function ListItems(lines: seq<string>, ordered: bool): (items: seq<string>)
    ensures |items| <= |lines|
    ensures lines != [] && ListItem(lines[0]).Some? && ListItem(lines[0]).value.ordered == ordered ==> items != []
  {
    if lines == [] then []
    else
      match ListItem(lines[0])
      case Some(item) => if item.ordered == ordered then [item.text] + ListItems(lines[1..], ordered) else []
      case None => []
  }

  function Step(lines: seq<string>): (s: Segment)
    requires lines != []
    ensures 1 <= s.taken <= |lines|
  {
    var line := lines[0];
    if IsBlank(line) then Segment(None, 1)
    else if IsProtectedOpening(line) then ProtectedSegment(lines)
    else if IsFencedOpening(line) then FencedSegment(lines)
    else
      match ImageLine(line)
      case Some(image) => Segment(Some(BlockRow(ImageBlock(image.src, image.alt, image.caption))), 1)
      case None =>
        match HeadingLine(line)
        case Some(heading) => Segment(Some(BlockRow(HeadingBlock(heading.level, heading.text))), 1)
        case None => PlainStep(lines)
  }

  /** The cases after images and headings: quotes, lists, and paragraphs. */
  function PlainStep(lines: seq<string>): (s: Segment)
    requires lines != []
    ensures 1 <= s.taken <= |lines|
  {
    if QuoteLine(lines[0]).Some? then
      var quoted := QuoteLines(lines);
      Segment(Some(BlockRow(QuoteOf(quoted))), |quoted|)
    else
      match ListItem(lines[0])
      case Some(first) =>
        var items := ListItems(lines, first.ordered);
        Segment(Some(BlockRow(ListBlock(first.ordered, items))), |items|)
      case None =>
        var k := FirstFrom(lines, 1, IsBlank);
        Segment(Some(NotBlankParagraph(lines[..k])), k)
  }

  function RowsOf(lines: seq<string>): seq<Value>
    decreases |lines|
  {
    if lines == [] then []
    else
      var s := Step(lines);
      (if s.row.Some? then [s.row.value] else []) + RowsOf(lines[s.taken..])
  }

  /** The lines of a document after its line breaks are normalised. */
  function LinesOf(markdown: string): seq<string> {
    Split(NormalizeBreaks(markdown), '\n')
  }

  /** markdownToBlocks as a function of the document. */
  function Rows(markdown: string): seq<Value> {
    RowsOf(LinesOf(markdown))
  }

  /** The line breaks of a document do not matter: only its lines do. */
  lemma {:induction false} BreaksDoNotMatter(one: string, other: string, lines: seq<string>, breaks: seq<LineBreak>, others: seq<LineBreak>)
    requires IsDocument(one, lines, breaks) && IsDocument(other, lines, others)
    ensures Rows(one) == Rows(other)
  {
    LinesExact(one, lines);
    LinesExact(other, lines);
  }

  // ---------- the reader as it runs ----------

  lemma {:induction false} RowsUnfold(lines: seq<string>, index: nat)
    requires index < |lines|
    ensures
      var s := Step(lines[index..]);
      && index + s.taken <= |lines|
      && RowsOf(lines[index..]) ==
         (if s.row.Some? then [s.row.value] else []) + RowsOf(lines[index + s.taken..])
  {
    assert lines[index..][Step(lines[index..]).taken..] == lines[index + Step(lines[index..]).taken..];
  }

  method ProtectedSegmentAt(lines: seq<string>, startIndex: nat) returns (row: Value, nextIndex: nat)
    requires startIndex < |lines|
    ensures startIndex < nextIndex <= |lines|
    ensures Segment(Some(row), nextIndex - startIndex) == ProtectedSegment(lines[startIndex..])
  {
    hide Join, Parse, IsProtectedClosing, FirstFrom, BlockRow;
    ghost var suffix := lines[startIndex..];
    var closingIndex := startIndex + 1;
    while closingIndex < |lines|
      invariant startIndex < closingIndex <= |lines|
      invariant forall i :: 1 <= i < closingIndex - startIndex ==> !IsProtectedClosing(suffix[i])
    {
      if IsProtectedClosing(lines[closingIndex]) {
        FirstFromIs(suffix, 1, IsProtectedClosing, closingIndex - startIndex);
        var raw := Join(lines[startIndex..closingIndex + 1], '\n');
        var json := Join(lines[startIndex + 1..closingIndex], '\n');
        ghost var k := closingIndex - startIndex;
        assert suffix[1..k] == lines[startIndex + 1..closingIndex];
        assert suffix[..k + 1] == lines[startIndex..closingIndex + 1];
        match Parse(json) {
          case Some(Obj(entries)) => row := Obj(entries);
          case _ => row := BlockRow(Paragraph(raw));
        }
        nextIndex := closingIndex + 1;
        return;
      }
      closingIndex := closingIndex + 1;
    }
    FirstFromIs(suffix, 1, IsProtectedClosing, |suffix|);
    row := BlockRow(Paragraph(Join(lines[startIndex..], '\n')));
    nextIndex := |lines|;
  }

  method FencedCodeSegmentAt(lines: seq<string>, startIndex: nat) returns (row: Value, nextIndex: nat)
    requires startIndex < |lines|
    ensures startIndex < nextIndex <= |lines|
    ensures Segment(Some(row), nextIndex - startIndex) == FencedSegment(lines[startIndex..])
  {
    hide Join, FenceOpening, IsFenceClosing, CodeCaption, FirstFrom, BlockRow;
    ghost var suffix := lines[startIndex..];
    var opening := FenceOpening(lines[startIndex]);
    if opening.None? {
      row := BlockRow(Paragraph(Join(lines[startIndex..], '\n')));
      nextIndex := |lines|;
      return;
    }
    var ticks := opening.value.ticks;
    var closing := (line: string) => IsFenceClosing(line, ticks);
    var closingIndex := startIndex + 1;
    while closingIndex < |lines|
      invariant startIndex < closingIndex <= |lines|
      invariant forall i :: 1 <= i < closingIndex - startIndex ==> !closing(suffix[i])
    {
      if IsFenceClosing(lines[closingIndex], ticks) {
        ghost var k := closingIndex - startIndex;
        FirstFromIs(suffix, 1, line => IsFenceClosing(line, ticks), k);
        assert suffix[1..k] == lines[startIndex + 1..closingIndex];
        var caption := if closingIndex + 1 < |lines| then CodeCaption(lines[closingIndex + 1]) else None;
        var code := Join(lines[startIndex + 1..closingIndex], '\n');
        row := BlockRow(CodeBlock(opening.value.language, code, caption));
        nextIndex := closingIndex + (if caption.None? then 1 else 2);
        return;
      }
      closingIndex := closingIndex + 1;
    }
    FirstFromIs(suffix, 1, line => IsFenceClosing(line, ticks), |suffix|);
    row := BlockRow(Paragraph(Join(lines[startIndex..], '\n')));
    nextIndex := |lines|;
  }

  lemma {:induction false} FirstFromIs(lines: seq<string>, from: nat, p: string -> bool, k: nat)
    requires from <= k <= |lines|
    requires forall i :: from <= i < k ==> !p(lines[i])
    requires k < |lines| ==> p(lines[k])
    ensures FirstFrom(lines, from, p) == k
  {
  }

  method MarkdownToBlocks(markdown: string) returns (blocks: seq<Value>)
    ensures blocks == Rows(markdown)
    ensures forall lines, breaks :: IsDocument(markdown, lines, breaks) ==> blocks == RowsOf(lines)
  {
    hide Step, RowsOf, Split, NormalizeBreaks, IsDocument;
    forall ls, breaks | IsDocument(markdown, ls, breaks) ensures LinesOf(markdown) == ls {
      LinesExact(markdown, ls);
    }
    var lines := Split(NormalizeBreaks(markdown), '\n');
    blocks := [];
    var index := 0;
    assert lines[0..] == lines;
    while index < |lines|
      invariant 0 <= index <= |lines|
      invariant blocks + RowsOf(lines[index..]) == RowsOf(lines)
    {
      RowsUnfold(lines, index);
      var row, next := SegmentAt(lines, index);
      if row.Some? {
        blocks := blocks + [row.value];
      }
      index := next;
    }
    NoRows(lines[index..]);
  }

  lemma {:induction false} NoRows(lines: seq<string>)
    requires lines == []
    ensures RowsOf(lines) == []
  {
  }

  /** The body of the reader's loop: which kind of segment starts at `index`. */
  method SegmentAt(lines: seq<string>, index: nat) returns (row: Option<Value>, next: nat)
    requires index < |lines|
    ensures index < next <= |lines|
    ensures Segment(row, next - index) == Step(lines[index..])
  {
    var line := lines[index];
    if IsBlank(line) {
      return None, index + 1;
    }
    if IsProtectedOpening(line) {
      var block, nextIndex := ProtectedSegmentAt(lines, index);
      return Some(block), nextIndex;
    }
    if IsFencedOpening(line) {
      var block, nextIndex := FencedCodeSegmentAt(lines, index);
      return Some(block), nextIndex;
    }
    var image := ImageLine(line);
    if image.Some? {
      return Some(BlockRow(ImageBlock(image.value.src, image.value.alt, image.value.caption))), index + 1;
    }
    var heading := HeadingLine(line);
    if heading.Some? {
      return Some(BlockRow(HeadingBlock(heading.value.level, heading.value.text))), index + 1;
    }
    var block, nextIndex := PlainSegmentAt(lines, index);
    return Some(block), nextIndex;
  }

  method PlainSegmentAt(lines: seq<string>, startIndex: nat) returns (row: Value, nextIndex: nat)
    requires startIndex < |lines|
    ensures startIndex < nextIndex <= |lines|
    ensures Segment(Some(row), nextIndex - startIndex) == PlainStep(lines[startIndex..])
  {
    hide Join, QuoteOf, BlockRow;
    if QuoteLine(lines[startIndex]).Some? {
      var quoteLines := QuoteLinesAt(lines, startIndex);
      return BlockRow(QuoteOf(quoteLines)), startIndex + |quoteLines|;
    }
    var firstListItem := ListItem(lines[startIndex]);
    if firstListItem.Some? {
      var items := ListItemsAt(lines, startIndex, firstListItem.value.ordered);
      return BlockRow(ListBlock(firstListItem.value.ordered, items)), startIndex + |items|;
    }
    nextIndex := startIndex + 1;
    ghost var suffix := lines[startIndex..];
    while nextIndex < |lines| && !IsBlank(lines[nextIndex])
      invariant startIndex < nextIndex <= |lines|
      invariant forall i :: 1 <= i < nextIndex - startIndex ==> !IsBlank(suffix[i])
    {
      nextIndex := nextIndex + 1;
    }
    FirstFromIs(suffix, 1, IsBlank, nextIndex - startIndex);
    assert suffix[..nextIndex - startIndex] == lines[startIndex..nextIndex];
    row := BlockRow(Paragraph(Join(lines[startIndex..nextIndex], '\n')));
  }

  method QuoteLinesAt(lines: seq<string>, startIndex: nat) returns (quoteLines: seq<string>)
    requires startIndex < |lines| && QuoteLine(lines[startIndex]).Some?
    ensures quoteLines == QuoteLines(lines[startIndex..])
  {
    hide QuoteLine;
    quoteLines := [QuoteLine(lines[startIndex]).value];
    var index := startIndex + 1;
    assert lines[startIndex..][1..] == lines[index..];
    while index < |lines|
      invariant startIndex < index <= |lines|
      invariant QuoteLines(lines[startIndex..]) == quoteLines + QuoteLines(lines[index..])
    {
      var quoteLine := QuoteLine(lines[index]);
      if quoteLine.None? {
        break;
      }
      assert lines[index..][1..] == lines[index + 1..];
      quoteLines := quoteLines + [quoteLine.value];
      index := index + 1;
    }
    assert QuoteLines(lines[index..]) == [];
  }

  method ListItemsAt(lines: seq<string>, startIndex: nat, ordered: bool) returns (items: seq<string>)
    requires startIndex < |lines| && ListItem(lines[startIndex]).Some?
    requires ListItem(lines[startIndex]).value.ordered == ordered
    ensures items == ListItems(lines[startIndex..], ordered)
  {
    hide ListItem;
    items := [ListItem(lines[startIndex]).value.text];
    var index := startIndex + 1;
    assert lines[startIndex..][1..] == lines[index..];
    while index < |lines|
      invariant startIndex < index <= |lines|
      invariant ListItems(lines[startIndex..], ordered) == items + ListItems(lines[index..], ordered)
    {
      var item := ListItem(lines[index]);
      if item.None? || item.value.ordered != ordered {
        break;
      }
      assert lines[index..][1..] == lines[index + 1..];
      items := items + [item.value.text];
      index := index + 1;
    }
    assert ListItems(lines[index..], ordered) == [];
  }
}
