/**
 What the Markdown reader takes from the front of its lines, said of the lines as they are written:
 which kind of segment starts there, how many lines it has, and every entry of its row.
 */
module MarkdownForms {
  import opened Wrappers
  import opened Text
  import opened Json
  import opened MarkdownLines
  import opened MarkdownBlocks
  import opened MarkdownParser
  import opened MarkdownPatterns

  function Lines(lines: seq<string>): string {
    Join(lines, '\n')
  }

  function TextRow(text: string): Value {
    Obj([Entry("blockType", Str("paragraph")), Entry("text", Str(text))])
  }

  ghost predicate IsProtectedSegment(lines: seq<string>, s: Segment) {
    if exists k :: 1 <= k < |lines| && ClosesProtected(lines[k]) then
      exists k :: 1 <= k < |lines| && ClosesProtected(lines[k]) && (forall i :: 1 <= i < k ==> !ClosesProtected(lines[i])) &&
        s == match Parse(Lines(lines[1..k]))
             case Some(Obj(row)) => Segment(Some(Obj(row)), k + 1)
             case _ => Segment(Some(TextRow(Lines(lines[..k + 1]))), k + 1)
    else s == Segment(Some(TextRow(Lines(lines))), |lines|)
  }

  /** The row of a fenced block, with the caption if the line after the closing fence is one. */
  ghost predicate IsCodeRow(language: string, code: string, after: Option<string>, row: Value, captioned: bool) {
    var entries := [Entry("blockType", Str("code")), Entry("code", Str(code)), Entry("language", Str(language))];
    && (captioned <==> after.Some? && exists caption :: IsCaptionLine(after.value, caption))
    && if captioned then exists caption :: IsCaptionLine(after.value, caption) && row == Obj(entries + [Entry("caption", Str(caption))])
       else row == Obj(entries)
  }

  /** From the opening fence to line `k`, and a caption on the line after it. */
  ghost predicate IsCodeSegment(lines: seq<string>, language: string, k: nat, s: Segment)
    requires 1 <= k < |lines|
  {
    var after := if k + 1 < |lines| then Some(lines[k + 1]) else None;
    exists row, captioned ::
      IsCodeRow(language, Lines(lines[1..k]), after, row, captioned) && s == Segment(Some(row), if captioned then k + 2 else k + 1)
  }

  ghost predicate IsFencedSegment(lines: seq<string>, s: Segment)
    requires lines != []
  {
    if exists ticks: nat, language :: OpensFence(lines[0], ticks, language) then
      exists ticks: nat, language :: OpensFence(lines[0], ticks, language) &&
        if exists k :: 1 <= k < |lines| && ClosesFence(lines[k], ticks) then
          exists k :: 1 <= k < |lines| && ClosesFence(lines[k], ticks) && (forall i :: 1 <= i < k ==> !ClosesFence(lines[i], ticks))
            && IsCodeSegment(lines, language, k, s)
        else s == Segment(Some(TextRow(Lines(lines))), |lines|)
    else s == Segment(Some(TextRow(Lines(lines))), |lines|)
  }

  /** The row of a quote: its last line may name a source. */
  ghost predicate IsQuoteRow(quoted: seq<string>, row: Value)
    requires quoted != []
  {
    var last := quoted[|quoted| - 1];
    if |last| >= 2 && last[..2] == "\U{2014} " then
      var named, text := last[2..], Entry("text", Str(Lines(quoted[..|quoted| - 1])));
      if exists url :: IsBare(named, url) then
        exists url :: IsBare(named, url)
          && row == Obj([Entry("blockType", Str("quote")), Entry("citeUrl", Str(url)), text])
      else if exists name, url :: IsNamed(named, name, url) then
        exists name, url :: IsNamed(named, name, url)
          && row == Obj([Entry("attribution", Str(name)), Entry("blockType", Str("quote")), Entry("citeUrl", Str(url)), text])
      else row == Obj([Entry("attribution", Str(named)), Entry("blockType", Str("quote")), text])
    else row == Obj([Entry("blockType", Str("quote")), Entry("text", Str(Lines(quoted)))])
  }

  ghost predicate IsQuoteSegment(lines: seq<string>, s: Segment) {
    exists quoted: seq<string> ::
      && 1 <= |quoted| <= |lines|
      && (forall i :: 0 <= i < |quoted| ==> IsQuoteLine(lines[i], quoted[i]))
      && (|quoted| < |lines| ==> forall text :: !IsQuoteLine(lines[|quoted|], text))
      && s.taken == |quoted| && s.row.Some? && IsQuoteRow(quoted, s.row.value)
  }

  ghost predicate IsListSegment(lines: seq<string>, ordered: bool, s: Segment) {
    exists items: seq<string>, rows: seq<Value> ::
      && 1 <= |items| <= |lines| && |rows| == |items|
      && (forall i :: 0 <= i < |items| ==> IsItemLine(lines[i], ordered, items[i]))
      && (forall i :: 0 <= i < |items| ==> rows[i] == Obj([Entry("text", Str(items[i]))]))
      && (|items| < |lines| ==> forall text :: !IsItemLine(lines[|items|], ordered, text))
      && s == Segment(Some(Obj([Entry("blockType", Str("list")), Entry("items", Arr(rows)),
                                Entry("style", Str(if ordered then "ordered" else "unordered"))])), |items|)
  }

  /** A paragraph goes on to the next blank line. */
  ghost predicate IsParagraphSegment(lines: seq<string>, s: Segment) {
    && 1 <= s.taken <= |lines|
    && (forall i :: 1 <= i < s.taken ==> !TabsAndSpaces(lines[i]))
    && (s.taken < |lines| ==> TabsAndSpaces(lines[s.taken]))
    && s.row == Some(TextRow(Lines(lines[..s.taken])))
  }

  ghost predicate IsImageSegment(line: string, s: Segment) {
    exists alt, src, caption: Option<string> :: IsImageLine(line, alt, src, caption) &&
      s == Segment(Some(Obj([Entry("alt", Str(alt)), Entry("blockType", Str("image")), Entry("src", Str(src))]
                            + if caption.Some? then [Entry("caption", Str(caption.value))] else [])), 1)
  }

  ghost predicate IsHeadingSegment(line: string, s: Segment) {
    exists level: nat, text :: IsHeadingLine(line, level, text) &&
      s == Segment(Some(Obj([Entry("blockType", Str("heading")),
                             Entry("level", Str(["??23456"[level]])), Entry("text", Str(text))])), 1)
  }

  /** The kinds in the order in which the reader tries them. */
  ghost predicate IsSegment(lines: seq<string>, s: Segment)
    requires lines != []
  {
    var line := lines[0];
    if TabsAndSpaces(line) then s == Segment(None, 1)
    else if OpensProtected(line) then IsProtectedSegment(lines, s)
    else if OpensFenced(line) then IsFencedSegment(lines, s)
    else if exists alt, src, caption :: IsImageLine(line, alt, src, caption) then IsImageSegment(line, s)
    else if exists level: nat, text :: IsHeadingLine(line, level, text) then IsHeadingSegment(line, s)
    else if exists text :: IsQuoteLine(line, text) then IsQuoteSegment(lines, s)
    else if exists ordered, text :: IsItemLine(line, ordered, text) then
      exists ordered, text :: IsItemLine(line, ordered, text) && IsListSegment(lines, ordered, s)
    else IsParagraphSegment(lines, s)
  }

  // ---------- each kind ----------

  lemma {:induction false} ProtectedForm(lines: seq<string>)
    requires lines != []
    ensures IsProtectedSegment(lines, ProtectedSegment(lines))
  {
    hide IsProtectedClosing, ClosesProtected, Parse, Join;
    forall line ensures IsProtectedClosing(line) <==> ClosesProtected(line) {
      ClosingExact(line);
    }
    var k := FirstFrom(lines, 1, IsProtectedClosing);
    if k < |lines| {
      assert ClosesProtected(lines[k]);
      if Parse(Join(lines[1..k], '\n')).Some? && Parse(Join(lines[1..k], '\n')).value.Obj? {
        assert Parse(Join(lines[1..k], '\n')) == Some(Obj(Parse(Join(lines[1..k], '\n')).value.entries));
      }
    }
  }

  lemma {:induction false} FencedForm(lines: seq<string>)
    requires lines != []
    ensures IsFencedSegment(lines, FencedSegment(lines))
  {
    hide FenceOpening, OpensFence, IsCodeSegment, Join;
    var s := FencedSegment(lines);
    forall ticks: nat, language ensures FenceOpening(lines[0]) == Some(Fence(ticks, language)) <==> OpensFence(lines[0], ticks, language) {
      FenceOpeningExact(lines[0], ticks, language);
    }
    if FenceOpening(lines[0]).Some? {
      var fence := FenceOpening(lines[0]).value;
      assert FenceOpening(lines[0]) == Some(Fence(fence.ticks, fence.language));
      CodeForm(lines, fence);
    }
  }

  lemma {:induction false} CodeForm(lines: seq<string>, fence: Fence)
    requires lines != [] && FenceOpening(lines[0]) == Some(fence)
    ensures var s := FencedSegment(lines);
      if exists k :: 1 <= k < |lines| && ClosesFence(lines[k], fence.ticks) then
        exists k :: 1 <= k < |lines| && ClosesFence(lines[k], fence.ticks) && (forall i :: 1 <= i < k ==> !ClosesFence(lines[i], fence.ticks))
          && IsCodeSegment(lines, fence.language, k, s)
      else s == Segment(Some(TextRow(Lines(lines))), |lines|)
  {
    hide FenceOpening, IsFenceClosing, ClosesFence, CodeCaption, IsCaptionLine, Join, IsCodeRow, IsCodeSegment;
    forall line ensures IsFenceClosing(line, fence.ticks) <==> ClosesFence(line, fence.ticks) {
      FenceClosingExact(line, fence.ticks);
    }
    var k := FirstFrom(lines, 1, line => IsFenceClosing(line, fence.ticks));
    if k < |lines| {
      assert ClosesFence(lines[k], fence.ticks);
      var after := if k + 1 < |lines| then Some(lines[k + 1]) else None;
      var code := Join(lines[1..k], '\n');
      CodeRowForm(fence.language, code, after);
      var caption := if after.Some? then CodeCaption(after.value) else None;
      assert FencedSegment(lines)
          == Segment(Some(BlockRow(CodeBlock(fence.language, code, caption))), if caption.Some? then k + 2 else k + 1);
      CodeSegmentIs(lines, fence.language, k, BlockRow(CodeBlock(fence.language, code, caption)), caption.Some?);
    }
  }

  lemma CodeSegmentIs(lines: seq<string>, language: string, k: nat, row: Value, captioned: bool)
    requires 1 <= k < |lines|
    requires IsCodeRow(language, Lines(lines[1..k]), if k + 1 < |lines| then Some(lines[k + 1]) else None, row, captioned)
    ensures IsCodeSegment(lines, language, k, Segment(Some(row), if captioned then k + 2 else k + 1))
  {
  }

  lemma {:induction false} CodeRowForm(language: string, code: string, after: Option<string>)
    ensures var caption := if after.Some? then CodeCaption(after.value) else None;
      IsCodeRow(language, code, after, BlockRow(CodeBlock(language, code, caption)), caption.Some?)
  {
    hide CodeCaption, IsCaptionLine;
    if after.Some? {
      forall caption ensures CodeCaption(after.value) == Some(caption) <==> IsCaptionLine(after.value, caption) {
        CaptionExact(after.value, caption);
      }
    }
  }

  lemma {:induction false} QuoteForm(quoted: seq<string>)
    requires quoted != []
    ensures IsQuoteRow(quoted, BlockRow(QuoteOf(quoted)))
  {
    hide BareCitation, NamedCitation, IsBare, IsNamed, Join;
    var last := quoted[|quoted| - 1];
    if StartsWith(last, DASH) {
      var named := last[2..];
      forall url ensures BareCitation(named) == Some(url) <==> IsBare(named, url) {
        BareExact(named, url);
      }
      forall name, url ensures NamedCitation(named) == Some(Citation(name, url)) <==> IsNamed(named, name, url) {
        NamedExact(named, name, url);
      }
      if NamedCitation(named).Some? {
        var found := NamedCitation(named).value;
        assert NamedCitation(named) == Some(Citation(found.attribution, found.url));
      }
    }
  }

  lemma {:induction false} QuoteRun(lines: seq<string>)
    ensures var quoted := QuoteLines(lines);
      && (forall i :: 0 <= i < |quoted| ==> IsQuoteLine(lines[i], quoted[i]))
      && (|quoted| < |lines| ==> forall text :: !IsQuoteLine(lines[|quoted|], text))
  {
    hide QuoteLine, IsQuoteLine;
    if lines != [] {
      forall text ensures QuoteLine(lines[0]) == Some(text) <==> IsQuoteLine(lines[0], text) {
        QuoteExact(lines[0], text);
      }
      if QuoteLine(lines[0]).Some? {
        QuoteRun(lines[1..]);
        var quoted := QuoteLines(lines);
        forall i | 0 <= i < |quoted| ensures IsQuoteLine(lines[i], quoted[i]) {
          if i > 0 {
            assert quoted[i] == QuoteLines(lines[1..])[i - 1] && lines[i] == lines[1..][i - 1];
          }
        }
      }
    }
  }

  lemma {:induction false} ItemRun(lines: seq<string>, ordered: bool)
    ensures var items := ListItems(lines, ordered);
      && (forall i :: 0 <= i < |items| ==> IsItemLine(lines[i], ordered, items[i]))
      && (|items| < |lines| ==> forall text :: !IsItemLine(lines[|items|], ordered, text))
  {
    hide ListItem, IsItemLine;
    if lines != [] {
      forall text ensures ListItem(lines[0]) == Some(Item(ordered, text)) <==> IsItemLine(lines[0], ordered, text) {
        ItemExact(lines[0], ordered, text);
      }
      var item := ListItem(lines[0]);
      if item.Some? && item.value.ordered == ordered {
        assert item == Some(Item(ordered, item.value.text));
        ItemRun(lines[1..], ordered);
        var items := ListItems(lines, ordered);
        forall i | 0 <= i < |items| ensures IsItemLine(lines[i], ordered, items[i]) {
          if i > 0 {
            assert items[i] == ListItems(lines[1..], ordered)[i - 1] && lines[i] == lines[1..][i - 1];
          }
        }
      }
    }
  }

  lemma {:induction false} ListForm(lines: seq<string>, ordered: bool)
    requires ListItems(lines, ordered) != []
    ensures var items := ListItems(lines, ordered);
      IsListSegment(lines, ordered, Segment(Some(BlockRow(ListBlock(ordered, items))), |items|))
  {
    hide IsItemLine, ListItems;
    ItemRun(lines, ordered);
    var items := ListItems(lines, ordered);
    var rows := ItemRows(items);
    assert |rows| == |items|;
  }

  lemma {:induction false} PlainForm(lines: seq<string>)
    requires lines != []
    requires QuoteLine(lines[0]).Some? <==> exists text :: IsQuoteLine(lines[0], text)
    requires ListItem(lines[0]).Some? <==> exists ordered, text :: IsItemLine(lines[0], ordered, text)
    ensures
      if exists text :: IsQuoteLine(lines[0], text) then IsQuoteSegment(lines, PlainStep(lines))
      else if exists ordered, text :: IsItemLine(lines[0], ordered, text) then
        exists ordered, text :: IsItemLine(lines[0], ordered, text) && IsListSegment(lines, ordered, PlainStep(lines))
      else IsParagraphSegment(lines, PlainStep(lines))
  {
    hide QuoteLine, ListItem, IsQuoteLine, IsItemLine, IsQuoteRow, IsListSegment, Join, IsBlank, QuoteOf, BlockRow;
    if QuoteLine(lines[0]).Some? {
      QuoteRun(lines);
      QuoteForm(QuoteLines(lines));
    } else if ListItem(lines[0]).Some? {
      var Item(ordered, text) := ListItem(lines[0]).value;
      ItemExact(lines[0], ordered, text);
      ListForm(lines, ordered);
    } else {
      ParagraphForm(lines);
    }
  }

  lemma {:induction false} ParagraphForm(lines: seq<string>)
    requires lines != []
    ensures var k := FirstFrom(lines, 1, IsBlank);
      IsParagraphSegment(lines, Segment(Some(NotBlankParagraph(lines[..k])), k))
  {
    hide IsBlank, TabsAndSpaces, Join;
    forall line ensures IsBlank(line) <==> TabsAndSpaces(line) {
      BlankExact(line);
    }
  }

  /** The reader takes exactly the segment that its first line starts. */
  lemma {:induction false} StepForm(lines: seq<string>)
    requires lines != []
    ensures IsSegment(lines, Step(lines))
  {
    hide IsBlank, TabsAndSpaces, IsProtectedOpening, OpensProtected, IsFencedOpening, OpensFenced;
    hide ImageLine, IsImageLine, HeadingLine, IsHeadingLine, PlainStep, ProtectedSegment, FencedSegment;
    hide IsProtectedSegment, IsFencedSegment, IsImageSegment, IsHeadingSegment, IsQuoteSegment, IsListSegment, IsParagraphSegment;
    hide QuoteLine, IsQuoteLine, ListItem, IsItemLine;
    var line := lines[0];
    BlankExact(line);
    OpeningExact(line);
    FencedExact(line);
    StartExact(line);
    ProtectedForm(lines);
    FencedForm(lines);
    PlainForm(lines);
    if ImageLine(line).Some? {
      ImageForm(line);
    } else if HeadingLine(line).Some? {
      HeadingForm(line);
    }
  }

  lemma {:induction false} ImageForm(line: string)
    requires ImageLine(line).Some?
    ensures var image := ImageLine(line).value;
      IsImageSegment(line, Segment(Some(BlockRow(ImageBlock(image.src, image.alt, image.caption))), 1))
  {
    hide ImageLine, IsImageLine;
    var Image(alt, src, caption) := ImageLine(line).value;
    ImageExact(line, alt, src, caption);
  }

  lemma {:induction false} HeadingForm(line: string)
    requires HeadingLine(line).Some?
    ensures var heading := HeadingLine(line).value;
      IsHeadingSegment(line, Segment(Some(BlockRow(HeadingBlock(heading.level, heading.text))), 1))
  {
    hide HeadingLine;
    var Heading(level, text) := HeadingLine(line).value;
    HeadingExact(line, level, text);
    assert NatText(level) == [DigitChar(level)];
    assert DigitChar(level) == "??23456"[level];
  }
}
