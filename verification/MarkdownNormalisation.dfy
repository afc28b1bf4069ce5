/** Markdown text read, printed and read again; and rows on which guards and patterns disagree. */
module MarkdownNormalisation {
  import opened Wrappers
  import opened Text
  import opened Json
  import opened MarkdownLines
  import opened MarkdownBlocks
  import opened MarkdownParser
  import opened MarkdownSteps
  import opened MarkdownRoundTrip
  import opened MarkdownDocuments

  // ---------- the reader's rows seen by the printer ----------

  /** Shapes the reader can push. */
  predicate IsReaderShape(b: Block) {
    && (b.HeadingBlock? ==> 2 <= b.level <= 6)
    && (b.ListBlock? ==> b.items != [])
  }

  lemma {:induction false} RemoveAbsent(row: seq<Entry>, key: string)
    requires forall e | e in row :: e.key != key
    ensures RemoveKey(row, key) == row
  {
    if row != [] {
      assert row[0] in row && row == [row[0]] + row[1..];
      RemoveAbsent(row[1..], key);
    }
  }

  lemma {:induction false} ItemRowRead(text: string)
    ensures ReadableListItem(ItemRow(text)) == if HasLineBreak(text) then None else Some(text)
  {
  }

  lemma {:induction false} ItemRowsRead(items: seq<string>)
    ensures ReadableListItems(ItemRows(items)) ==
      if forall text | text in items :: !HasLineBreak(text) then Some(items) else None
  {
    if items != [] {
      assert items == [items[0]] + items[1..];
      ItemRowRead(items[0]);
      ItemRowsRead(items[1..]);
      assert ItemRows(items)[1..] == ItemRows(items[1..]);
    }
  }

  lemma {:induction false} StringField(b: Block, key: string)
    ensures StringOf(BlockEntries(b), key) ==
      match FieldOf(b, key)
      case Some(Str(s)) => Some(s)
      case _ => None
    ensures HasOptionalString(BlockEntries(b), key) ==
      match FieldOf(b, key)
      case None => true
      case Some(v) => v == Null || v.Str?
  {
    GetField(b, key);
  }

  lemma {:induction false} FieldKeys(b: Block, allowed: seq<string>)
    requires forall key :: FieldOf(b, key).Some? ==> key in allowed
    ensures HasOnlyKeys(BlockEntries(b), allowed)
  {
    hide BlockEntries, FieldOf;
    forall e | e in BlockEntries(b) ensures e.key in allowed {
      GetField(b, e.key);
      if Get(BlockEntries(b), e.key).None? {
        GetNone(BlockEntries(b), e.key);
      }
    }
  }

  lemma {:induction false} ReadParagraphRow(text: string)
    ensures ReadableParagraph(BlockEntries(Paragraph(text)))
         == if IsReadableParagraphText(text) then Some(Paragraph(text)) else None
  {
    hide IsReadableParagraphText, BlockEntries, Get, HasOnlyKeys;
    var b := Paragraph(text);
    FieldKeys(b, ["blockType", "text"]);
    StringField(b, "text");
    GetField(b, "blockType");
  }

  lemma {:induction false} ReadHeadingRow(level: nat, text: string)
    requires 2 <= level <= 6
    ensures ReadableHeading(BlockEntries(HeadingBlock(level, text)))
         == if HasLineBreak(text) then None else Some(HeadingBlock(level, text))
  {
    hide BlockEntries, Get, HasOnlyKeys;
    var b := HeadingBlock(level, text);
    FieldKeys(b, ["blockType", "level", "text"]);
    StringField(b, "text");
    StringField(b, "level");
    GetField(b, "blockType");
    LevelOf(level);
  }

  lemma {:induction false} LevelOf(level: nat)
    requires 2 <= level <= 6
    ensures HeadingLevel(NatText(level)) == Some(level)
  {
    assert NatText(level) == [DigitChar(level)];
  }

  lemma {:induction false} ReadQuoteRow(text: string, attribution: Option<string>, citeUrl: Option<string>)
    ensures
      var b := QuoteBlock(text, attribution, citeUrl);
      ReadableQuote(BlockEntries(b))
        == if IsReadableQuoteContent(text, attribution, citeUrl) then Some(b) else None
  {
    hide IsReadableQuoteContent, BlockEntries, Get, HasOnlyKeys, StringOf, HasOptionalString;
    var b := QuoteBlock(text, attribution, citeUrl);
    FieldKeys(b, ["blockType", "text", "attribution", "citeUrl"]);
    StringField(b, "text");
    StringField(b, "attribution");
    StringField(b, "citeUrl");
    GetField(b, "blockType");
  }

  lemma {:induction false} ReadListRow(ordered: bool, items: seq<string>)
    requires items != []
    ensures
      var b := ListBlock(ordered, items);
      ReadableList(BlockEntries(b))
        == if forall text | text in items :: !HasLineBreak(text) then Some(b) else None
  {
    hide BlockEntries, Get, HasOnlyKeys, StringOf;
    var b := ListBlock(ordered, items);
    FieldKeys(b, ["blockType", "style", "items"]);
    StringField(b, "style");
    GetField(b, "blockType");
    GetField(b, "items");
    ItemRowsRead(items);
  }

  lemma {:induction false} ReadCodeRow(language: string, code: string, caption: Option<string>)
    ensures
      var b := CodeBlock(language, code, caption);
      ReadableCode(BlockEntries(b))
        == if IsReadableCodeContent(language, code, caption) then Some(b) else None
  {
    hide IsReadableCodeContent, BlockEntries, Get, HasOnlyKeys, StringOf, HasOptionalString;
    var b := CodeBlock(language, code, caption);
    FieldKeys(b, ["blockType", "language", "code", "caption"]);
    StringField(b, "language");
    StringField(b, "code");
    StringField(b, "caption");
    GetField(b, "blockType");
  }

  lemma {:induction false} ReadImageRow(src: string, alt: string, caption: Option<string>)
    ensures
      var b := ImageBlock(src, alt, caption);
      ReadableImage(BlockEntries(b))
        == if IsReadableImageContent(src, alt, caption) then Some(b) else None
  {
    hide IsReadableImageContent, BlockEntries, Get, HasOnlyKeys, StringOf, HasOptionalString;
    var b := ImageBlock(src, alt, caption);
    FieldKeys(b, ["blockType", "src", "alt", "caption"]);
    StringField(b, "src");
    StringField(b, "alt");
    StringField(b, "caption");
    GetField(b, "blockType");
    GetField(b, "width");
    GetField(b, "height");
    ImageHasNoSize(src, alt, caption);
    RemoveAbsent(BlockEntries(b), "height");
    RemoveAbsent(BlockEntries(b), "width");
  }

  lemma ImageHasNoSize(src: string, alt: string, caption: Option<string>)
    ensures forall e | e in BlockEntries(ImageBlock(src, alt, caption)) :: e.key != "width" && e.key != "height"
  {
  }

  /** The printer sees in a reader's row exactly the block it was made of. */
  lemma {:induction false} ReadableRow(b: Block)
    requires IsReaderShape(b)
    ensures ReadableOf(BlockEntries(b)) == if IsReadableBlock(b) then Some(b) else None
  {
    hide BlockEntries, Get, ReadableParagraph, ReadableHeading, ReadableQuote, ReadableList, ReadableCode, ReadableImage;
    hide IsReadableParagraphText, IsReadableQuoteContent, IsReadableCodeContent, IsReadableImageContent;
    OtherKinds(b);
    match b
    case Paragraph(text) => ReadParagraphRow(text);
    case HeadingBlock(level, text) => ReadHeadingRow(level, text);
    case QuoteBlock(text, attribution, citeUrl) => ReadQuoteRow(text, attribution, citeUrl);
    case ListBlock(ordered, items) => ReadListRow(ordered, items);
    case CodeBlock(language, code, caption) => ReadCodeRow(language, code, caption);
    case ImageBlock(src, alt, caption) => ReadImageRow(src, alt, caption);
  }

  lemma {:induction false} OtherKinds(b: Block)
    ensures
      var row := BlockEntries(b);
      && (!b.Paragraph? ==> ReadableParagraph(row).None?)
      && (!b.HeadingBlock? ==> ReadableHeading(row).None?)
      && (!b.QuoteBlock? ==> ReadableQuote(row).None?)
      && (!b.ListBlock? ==> ReadableList(row).None?)
      && (!b.CodeBlock? ==> ReadableCode(row).None?)
      && (!b.ImageBlock? ==> ReadableImage(row).None?)
  {
    hide BlockEntries, Get, HasOnlyKeys, StringOf, HasOptionalString;
    GetField(b, "blockType");
  }

  lemma {:induction false} ReaderRowIsJson(b: Block)
    ensures IsJson(BlockRow(b))
  {
    ReaderKeysDistinct(b);
    forall e | e in BlockEntries(b) ensures IsJson(e.value) {
      if b.ListBlock? && e.value == Arr(ItemRows(b.items)) {
        ItemRowsAreJson(b.items);
      }
    }
  }

  lemma {:induction false} ItemRowsAreJson(items: seq<string>)
    ensures IsJson(Arr(ItemRows(items)))
  {
    forall v | v in ItemRows(items) ensures IsJson(v) {
      var i :| 0 <= i < |items| && v == ItemRow(items[i]);
    }
  }

  lemma {:induction false} ReaderKeysDistinct(b: Block)
    ensures DistinctKeys(BlockEntries(b))
  {
    match b
    case QuoteBlock(text, attribution, citeUrl) => QuoteKeysDistinct(text, attribution, citeUrl);
    case CodeBlock(language, code, caption) =>
      var c, l := Entry("code", Str(code)), Entry("language", Str(language));
      if caption.Some? {
        assert BlockEntries(b) == [TypeEntry("code"), c, l, Entry("caption", Str(caption.value))];
      } else {
        assert BlockEntries(b) == [TypeEntry("code"), c, l];
      }
    case ImageBlock(src, alt, caption) =>
      var a, c := Entry("alt", Str(alt)), Entry("src", Str(src));
      if caption.Some? {
        assert BlockEntries(b) == [a, TypeEntry("image"), c, Entry("caption", Str(caption.value))];
      } else {
        assert BlockEntries(b) == [a, TypeEntry("image"), c];
      }
    case _ =>
  }

  lemma {:induction false} QuoteKeysDistinct(text: string, attribution: Option<string>, citeUrl: Option<string>)
    ensures DistinctKeys(BlockEntries(QuoteBlock(text, attribution, citeUrl)))
  {
    var b := QuoteBlock(text, attribution, citeUrl);
    var t := Entry("text", Str(text));
    if attribution.Some? && citeUrl.Some? {
      assert BlockEntries(b) == [Entry("attribution", Str(attribution.value)), TypeEntry("quote"),
                                 Entry("citeUrl", Str(citeUrl.value)), t];
    } else if attribution.Some? {
      assert BlockEntries(b) == [Entry("attribution", Str(attribution.value)), TypeEntry("quote"), t];
    } else if citeUrl.Some? {
      assert BlockEntries(b) == [TypeEntry("quote"), Entry("citeUrl", Str(citeUrl.value)), t];
    } else {
      assert BlockEntries(b) == [TypeEntry("quote"), t];
    }
  }

  /** For the reader's own rows, being faithful is agreeing with the patterns if readable at all. */
  lemma {:induction false} ReaderRowFaithful(b: Block)
    requires IsReaderShape(b)
    ensures IsFaithful(BlockRow(b)) <==> (IsReadableBlock(b) ==> AgreesWithPatterns(b))
    ensures ReadAs(BlockRow(b)) == BlockRow(b)
  {
    hide BlockEntries, Get, IsReadableBlock, AgreesWithPatterns, ReadableOf;
    ReadableRow(b);
    if b.ImageBlock? {
      StringField(b, "caption");
      GetField(b, "width");
      GetField(b, "height");
    }
  }

  // ---------- where guards and patterns disagree ----------

  /** A readable row of the reader's shape does not survive exactly when it disagrees. */
  lemma {:induction false} OneRowRoundTrip(b: Block)
    requires IsReaderShape(b) && IsReadableBlock(b)
    ensures AllPreserved([BlockRow(b)], Rows(BlocksToMarkdown([BlockRow(b)]))) <==> AgreesWithPatterns(b)
  {
    hide Preserved, IsFaithful, IsReadableBlock, AgreesWithPatterns, BlockRow, BlocksToMarkdown, Rows;
    ReaderRowIsJson(b);
    ReaderRowFaithful(b);
    IsObject(b);
    assert forall v :: v in [BlockRow(b)] <==> v == BlockRow(b);
    RowRoundTrip([BlockRow(b)]);
  }

  lemma {:induction false} IsObject(b: Block)
    ensures BlockRow(b).Obj?
  {
  }

  ghost predicate IsLost(b: Block) {
    IsReaderShape(b) && IsReadableBlock(b) &&
    !AllPreserved([BlockRow(b)], Rows(BlocksToMarkdown([BlockRow(b)])))
  }

  /** A code language that starts with a backtick, a space or a tab. */
  lemma FenceLanguageIsLost(code: string)
    requires '\r' !in code
    ensures IsLost(CodeBlock("`js", code, None))
    ensures IsLost(CodeBlock(" js", code, None))
    ensures IsLost(CodeBlock("\tjs", code, None))
  {
    hide AllPreserved, Rows, BlocksToMarkdown, BlockRow;
    OneRowRoundTrip(CodeBlock("`js", code, None));
    OneRowRoundTrip(CodeBlock(" js", code, None));
    OneRowRoundTrip(CodeBlock("\tjs", code, None));
  }

  /** A citation-less attribution in angle brackets comes back as a citation. */
  lemma AngleAttributionIsLost(text: string)
    requires !HasLineBreak(text)
    ensures IsLost(QuoteBlock(text, Some("<x>"), None))
  {
    hide AllPreserved, Rows, BlocksToMarkdown, BlockRow;
    var b := QuoteBlock(text, Some("<x>"), None);
    assert BareCitation("<x>") == Some("<x>"[1..2]);
    assert AfterLastAngle("<x>"[..2]) == 1 by {
      AfterLastAngleIs("<x>"[..2], 1);
    }
    OneRowRoundTrip(b);
  }

  /** An image without a source. */
  lemma EmptySourceIsLost(alt: string)
    requires !HasLineBreak(alt) && '[' !in alt && ']' !in alt
    ensures IsLost(ImageBlock("", alt, None))
  {
    hide AllPreserved, Rows, BlocksToMarkdown, BlockRow;
    OneRowRoundTrip(ImageBlock("", alt, None));
  }

  /** A line separator inside the text of a heading, quote or list item, or a code caption. */
  lemma LineSeparatorIsLost(c: char)
    requires c as int == 0x2028 || c as int == 0x2029
    ensures IsLost(HeadingBlock(2, [c]))
    ensures IsLost(QuoteBlock([c], None, None))
    ensures IsLost(ListBlock(true, [[c]]))
    ensures IsLost(CodeBlock("", "", Some([c])))
  {
    hide AllPreserved, Rows, BlocksToMarkdown, BlockRow;
    assert !Dots([c]) by {
      assert [c][0] == c && !IsDot(c);
    }
    assert [c] in [[c]];
    OneRowRoundTrip(HeadingBlock(2, [c]));
    OneRowRoundTrip(QuoteBlock([c], None, None));
    OneRowRoundTrip(ListBlock(true, [[c]]));
    OneRowRoundTrip(CodeBlock("", "", Some([c])));
  }

  function NumericCaption(n: int): seq<Entry> {
    [TypeEntry("image"), Entry("src", Str("a")), Entry("alt", Str("")), Entry("caption", Num(n))]
  }

  lemma {:induction false} NumericCaptionFields(n: int)
    ensures
      var row := NumericCaption(n);
      && DistinctKeys(row)
      && Get(row, "blockType") == Some(Str("image"))
      && Get(row, "src") == Some(Str("a"))
      && Get(row, "alt") == Some(Str(""))
      && Get(row, "caption") == Some(Num(n))
      && Get(row, "width") == None && Get(row, "height") == None
      && RemoveKey(RemoveKey(row, "height"), "width") == row
  {
    hide Get, RemoveKey;
    var row := NumericCaption(n);
    GetIs(row, 0);
    GetIs(row, 1);
    GetIs(row, 2);
    GetIs(row, 3);
    GetAbsent(row, "width");
    GetAbsent(row, "height");
    RemoveAbsent(row, "height");
    RemoveAbsent(row, "width");
  }

  lemma {:induction false} NumericCaptionRead(n: int)
    ensures ReadableOf(NumericCaption(n)) == Some(ImageBlock("a", "", None))
    ensures IsJson(Obj(NumericCaption(n)))
    ensures Get(NumericCaption(n), "caption") == Some(Num(n))
  {
    hide Get, RemoveKey, ReadableOf;
    var row := NumericCaption(n);
    NumericCaptionFields(n);
    forall e | e in row ensures e.key in ["blockType", "src", "alt", "caption"] && IsJson(e.value) {
    }
    assert HasOnlyKeys(row, ["blockType", "src", "alt", "caption"]);
    assert IsReadableImageContent("a", "", None);
    OnlyImage(row);
  }

  lemma {:induction false} OnlyImage(row: seq<Entry>)
    requires HasType(row, "image")
    ensures ReadableOf(row) == ReadableImage(row)
  {
    hide Get, HasOnlyKeys, StringOf, HasOptionalString;
  }

  /** An image whose caption is a number prints without it. */
  lemma NumericCaptionIsLost(n: int)
    ensures
      var row := Obj(NumericCaption(n));
      ReadableOf(row.entries).Some? && !AllPreserved([row], Rows(BlocksToMarkdown([row])))
  {
    hide AllPreserved, Rows, BlocksToMarkdown, ReadableOf, Get, IsJson;
    var row := Obj(NumericCaption(n));
    NumericCaptionRead(n);
    assert !IsFaithful(row);
    assert forall v :: v in [row] <==> v == row;
    RowRoundTrip([row]);
  }

  // ---------- Markdown text ----------

  predicate IsTickLanguage(language: string) {
    language != "" && IsBacktick(language[0])
  }

  /** A line such as "``` `js": a fence whose language starts with a backtick. */
  predicate OpensTickFence(line: string) {
    IsFencedOpening(line) && FenceOpening(line).Some? && IsTickLanguage(FenceOpening(line).value.language)
  }

  predicate HasTickLanguage(b: Block) {
    b.CodeBlock? && IsTickLanguage(b.language)
  }

  /** Lines of a document that holds no protected block. */
  predicate ArePlainLines(lines: seq<string>) {
    NoneHas(lines, '\n') && NoneHas(lines, '\r') && forall line | line in lines :: !IsProtectedOpening(line)
  }

  /** What is known of a block that the reader pushes for such lines. */
  predicate IsReaderBlock(b: Block, lines: seq<string>) {
    && IsReaderShape(b)
    && (IsReadableBlock(b) ==> AgreesWithPatterns(b) || HasTickLanguage(b))
    && (HasTickLanguage(b) ==> IsReadableBlock(b) && exists line | line in lines :: OpensTickFence(line))
  }

  lemma {:induction false} DotsNoBreak(s: string)
    requires Dots(s)
    ensures !HasLineBreak(s)
  {
    assert forall i :: 0 <= i < |s| ==> IsDot(s[i]);
  }

  lemma {:induction false} ManyPartsBreak(parts: seq<string>)
    requires |parts| > 1
    ensures '\n' in Join(parts, '\n')
  {
    assert Join(parts, '\n')[|parts[0]|] == '\n';
  }

  lemma {:induction false} JoinedDots(parts: seq<string>)
    requires forall part | part in parts :: Dots(part)
    requires !HasLineBreak(Join(parts, '\n'))
    ensures Dots(Join(parts, '\n'))
  {
    if |parts| == 1 {
      assert parts[0] in parts;
    } else if |parts| > 1 {
      ManyPartsBreak(parts);
    }
  }

  lemma {:induction false} CitationDots(metadata: string)
    requires Dots(metadata)
    ensures BareCitation(metadata).Some? ==> Dots(BareCitation(metadata).value)
    ensures NamedCitation(metadata).Some? ==>
      Dots(NamedCitation(metadata).value.attribution) && Dots(NamedCitation(metadata).value.url)
  {
    if NamedCitation(metadata).Some? {
      var n := AfterLastAngle(metadata[..|metadata| - 1]);
      var url := NamedCitation(metadata).value.url;
      assert forall i :: 0 <= i < |url| ==> url[i] == metadata[n + i];
    }
  }

  lemma {:induction false} QuoteOfReader(quoted: seq<string>, lines: seq<string>)
    requires forall q | q in quoted :: Dots(q)
    ensures IsReaderBlock(QuoteOf(quoted), lines)
  {
    hide NamedCitation, BareCitation, Join;
    var b := QuoteOf(quoted);
    if IsReadableBlock(b) {
      if quoted == [] || !StartsWith(quoted[|quoted| - 1], DASH) {
        JoinedDots(quoted);
      } else {
        var last := quoted[|quoted| - 1];
        assert last in quoted;
        var metadata := last[2..];
        assert Dots(metadata);
        CitationDots(metadata);
        JoinedDots(quoted[..|quoted| - 1]);
      }
    }
  }

  lemma {:induction false} QuotedDots(lines: seq<string>)
    ensures forall q | q in QuoteLines(lines) :: Dots(q)
  {
    if lines != [] && QuoteLine(lines[0]).Some? {
      QuotedDots(lines[1..]);
    }
  }

  lemma {:induction false} ListItemsDots(lines: seq<string>, ordered: bool)
    ensures forall text | text in ListItems(lines, ordered) :: Dots(text)
  {
    hide Run;
    if lines != [] && ListItem(lines[0]).Some? && ListItem(lines[0]).value.ordered == ordered {
      ListItemsDots(lines[1..], ordered);
    }
  }

  lemma {:induction false} ListReader(lines: seq<string>, ordered: bool)
    requires ListItems(lines, ordered) != []
    ensures IsReaderBlock(ListBlock(ordered, ListItems(lines, ordered)), lines)
  {
    ListItemsDots(lines, ordered);
  }

  lemma {:induction false} LanguageShape(line: string)
    requires FenceOpening(line).Some?
    ensures
      var language := FenceOpening(line).value.language;
      Dots(language) && (language == "" || !IsBlankChar(language[0]))
  {
    var rest := line[Ticks(line)..];
    var n := Run(rest, IsBlankChar);
    assert forall i :: 0 <= i < |rest[n..]| ==> rest[n..][i] == rest[n + i];
  }

  lemma {:induction false} FenceReader(lines: seq<string>) returns (b: Block)
    requires lines != [] && ArePlainLines(lines) && IsFencedOpening(lines[0])
    ensures FencedSegment(lines).row == Some(BlockRow(b)) && IsReaderBlock(b, lines)
  {
    hide FenceOpening, IsFenceClosing, BlockRow, IsReadableParagraphText;
    match FenceOpening(lines[0])
    case None => b := Paragraph(Join(lines, '\n'));
    case Some(fence) =>
      var k := FirstFrom(lines, 1, line => IsFenceClosing(line, fence.ticks));
      if k == |lines| {
        b := Paragraph(Join(lines, '\n'));
      } else {
        var caption := if k + 1 < |lines| then CodeCaption(lines[k + 1]) else None;
        b := CodeBlock(fence.language, Join(lines[1..k], '\n'), caption);
        LanguageShape(lines[0]);
        DotsNoBreak(fence.language);
        if caption.Some? {
          DotsNoBreak(caption.value);
        }
        JoinFree(lines[1..k], '\n', '\r');
        assert lines[0] in lines;
      }
  }

  lemma {:induction false} HeadingDots(line: string)
    requires HeadingLine(line).Some?
    ensures Dots(HeadingLine(line).value.text)
  {
  }

  lemma {:induction false} ImageParts(line: string)
    requires ImageLine(line).Some?
    ensures ImageLine(line).value.src != ""
  {
  }

  /** Every row the reader pushes is made of such a block. */
  lemma {:induction false} StepReader(lines: seq<string>) returns (b: Block)
    requires lines != [] && ArePlainLines(lines) && Step(lines).row.Some?
    ensures Step(lines).row == Some(BlockRow(b)) && IsReaderBlock(b, lines)
  {
    hide ImageLine, HeadingLine, BlockRow, FencedSegment, ProtectedSegment, IsReadableParagraphText, IsReadableImageContent;
    hide QuoteLine, ListItem, QuoteOf, Join, IsProtectedOpening, IsFencedOpening;
    var line := lines[0];
    assert line in lines;
    if IsFencedOpening(line) {
      b := FenceReader(lines);
    } else if ImageLine(line).Some? {
      var image := ImageLine(line).value;
      ImageParts(line);
      b := ImageBlock(image.src, image.alt, image.caption);
    } else if HeadingLine(line).Some? {
      HeadingDots(line);
      b := HeadingBlock(HeadingLine(line).value.level, HeadingLine(line).value.text);
    } else if QuoteLine(line).Some? {
      QuotedDots(lines);
      b := QuoteOf(QuoteLines(lines));
      QuoteOfReader(QuoteLines(lines), lines);
    } else if ListItem(line).Some? {
      var ordered := ListItem(line).value.ordered;
      b := ListBlock(ordered, ListItems(lines, ordered));
      ListReader(lines, ordered);
    } else {
      b := Paragraph(Join(lines[..FirstFrom(lines, 1, IsBlank)], '\n'));
    }
  }

  ghost predicate IsReaderRow(row: Value, lines: seq<string>) {
    exists b :: row == BlockRow(b) && IsReaderBlock(b, lines)
  }

  lemma {:induction false} ReaderRows(lines: seq<string>)
    requires ArePlainLines(lines)
    ensures forall row | row in RowsOf(lines) :: IsReaderRow(row, lines)
    decreases |lines|
  {
    hide Step, BlockRow, IsReaderBlock;
    if lines != [] {
      var s := Step(lines);
      if s.row.Some? {
        var b := StepReader(lines);
        assert IsReaderRow(s.row.value, lines);
      }
      ReaderRows(lines[s.taken..]);
      forall row | row in RowsOf(lines[s.taken..]) ensures IsReaderRow(row, lines) {
        var b :| row == BlockRow(b) && IsReaderBlock(b, lines[s.taken..]);
        MoreLines(b, lines, s.taken);
      }
    }
  }

  lemma {:induction false} MoreLines(b: Block, lines: seq<string>, n: nat)
    requires n <= |lines| && IsReaderBlock(b, lines[n..])
    ensures IsReaderBlock(b, lines)
  {
    hide IsReadableBlock, AgreesWithPatterns;
    if HasTickLanguage(b) {
      var line :| line in lines[n..] && OpensTickFence(line);
      assert line in lines;
    }
  }

  /** A row that holds code in a language starting with a backtick. */
  ghost predicate IsTickRow(row: Value) {
    exists b :: row == BlockRow(b) && HasTickLanguage(b)
  }

  lemma {:induction false} BlockRowInjective(a: Block, b: Block)
    requires BlockRow(a) == BlockRow(b) && HasTickLanguage(b)
    ensures HasTickLanguage(a)
  {
    hide BlockEntries;
    GetField(a, "blockType");
    GetField(b, "blockType");
    GetField(a, "language");
    GetField(b, "language");
  }

  /** Each reader's row is faithful exactly when its language does not start with a backtick. */
  lemma {:induction false} ReaderRowFacts(row: Value, lines: seq<string>)
    requires IsReaderRow(row, lines)
    ensures row.Obj? && IsJson(row) && ReadAs(row) == row && Preserved(row, row)
    ensures IsFaithful(row) <==> !IsTickRow(row)
    ensures IsTickRow(row) ==> exists line | line in lines :: OpensTickFence(line)
  {
    hide BlockEntries, IsReadableBlock, IsFaithful, IsJson, Preserved, ReadAs, ReadableOf;
    var b :| row == BlockRow(b) && IsReaderBlock(b, lines);
    ReaderRowIsJson(b);
    ReaderRowFaithful(b);
    ReaderRowKept(b);
    if IsTickRow(row) {
      var a :| row == BlockRow(a) && HasTickLanguage(a);
      BlockRowInjective(b, a);
    }
  }

  lemma {:induction false} ReaderRowKept(b: Block)
    requires IsReaderShape(b)
    ensures Preserved(BlockRow(b), BlockRow(b))
  {
    hide BlockEntries, IsReadableBlock, ReadableOf, Get;
    ReadableRow(b);
    if IsReadableBlock(b) {
      ReaderRowIsJson(b);
      if b.ImageBlock? {
        StringField(b, "caption");
        GetField(b, "width");
        GetField(b, "height");
      }
      FaithfulPreserved(BlockEntries(b), b);
    }
  }

  /**
   Text normalisation: for Markdown without a protected block, reading, printing and reading again
   changes nothing, if and only if no code block has a language that starts with a backtick.
   */
  lemma TextNormalisation(markdown: string)
    requires forall line | line in LinesOf(markdown) :: !IsProtectedOpening(line)
    ensures
      var rows := Rows(markdown);
      Rows(BlocksToMarkdown(rows)) == rows <==> forall row | row in rows :: !IsTickRow(row)
  {
    hide IsReaderRow, IsFaithful, IsJson, Preserved, ReadAs, IsTickRow, Step, BlocksToMarkdown, RowsOf;
    var lines, rows := LinesOf(markdown), Rows(markdown);
    PlainDocument(markdown);
    ReaderRows(lines);
    forall row | row in rows
      ensures row.Obj? && IsJson(row) && ReadAs(row) == row && Preserved(row, row)
      ensures IsFaithful(row) <==> !IsTickRow(row)
    {
      ReaderRowFacts(row, lines);
    }
    RowRoundTrip(rows);
    assert AllReadAs(rows) == rows;
    assert AllPreserved(rows, rows);
  }

  lemma {:induction false} PlainDocument(markdown: string)
    requires forall line | line in LinesOf(markdown) :: !IsProtectedOpening(line)
    ensures ArePlainLines(LinesOf(markdown))
  {
    var text := NormalizeBreaks(markdown);
    NormalizedFree(markdown);
    SplitFree(text, '\n');
    forall line | line in Split(text, '\n') ensures '\r' !in line {
      var i := SplitStretch(text, '\n', line);
    }
  }

  /** In particular when no line of the text opens a fence with such a language. */
  lemma PlainTextNormalisation(markdown: string)
    requires forall line | line in LinesOf(markdown) :: !IsProtectedOpening(line) && !OpensTickFence(line)
    ensures Rows(BlocksToMarkdown(Rows(markdown))) == Rows(markdown)
  {
    hide IsReaderRow, IsFaithful, IsJson, Preserved, ReadAs, IsTickRow, Step, BlocksToMarkdown, RowsOf;
    PlainDocument(markdown);
    ReaderRows(LinesOf(markdown));
    forall row | row in Rows(markdown) ensures !IsTickRow(row) {
      ReaderRowFacts(row, LinesOf(markdown));
    }
    TextNormalisation(markdown);
  }
}
